/** The scanner of expression.go, and the tokens it finds in a text of tokens with spaces between them. */
module ExpressionScanner {
  import opened Prelude
  import opened Expression
  import opened ExpressionTree
  import opened ExpressionParser
  import Text

  predicate IsBlank(c: char) {
    c == ' ' || c == '\t' || c == '\r' || c == '\n'
  }

  predicate IsDigit(c: char) {
    '0' <= c <= '9'
  }

  predicate IsDelimiter(c: char) {
    c in " \t\r\n(){},?:!><=+-*/%"
  }

  /** The tokens of one character, other than operators. */
  function Mark(c: char): Option<Token> {
    if c == '(' then Some(OPEN)
    else if c == ')' then Some(CLOSE)
    else if c == '{' then Some(LEFT)
    else if c == '}' then Some(RIGHT)
    else if c == ',' then Some(COMMA)
    else if c == '?' then Some(ASK)
    else if c == ':' then Some(ELSE)
    else None
  }

  predicate IsSign(c: char) {
    c in "!><+-*/%"
  }

  predicate IsPair(c: char, d: char) {
    || (d == '=' && (c == '=' || c == '!' || c == '>' || c == '<'))
    || (c == '&' && d == '&') || (c == '|' && d == '|')
  }

  /** The index after a quoted text whose characters start at an index; a backslash skips one in double quotes. */
  function StringEnd(e: string, i: nat, quote: char): (r: Option<nat>)
    ensures r.Some? ==> i < r.value <= |e|
    decreases |e| - i
  {
    if i >= |e| then None
    else if e[i] == '\\' && quote == '"' then StringEnd(e, i + 2, quote)
    else if e[i] == quote then Some(i + 1)
    else StringEnd(e, i + 1, quote)
  }

  function DigitsEnd(e: string, i: nat): (r: nat)
    requires i <= |e|
    ensures i <= r <= |e| && (r < |e| ==> !IsDigit(e[r]))
    decreases |e| - i
  {
    if i < |e| && IsDigit(e[i]) then DigitsEnd(e, i + 1) else i
  }

  predicate NumberStart(e: string, i: nat)
    requires i < |e|
  {
    IsDigit(e[i]) || (e[i] == '.' && i + 1 < |e| && IsDigit(e[i + 1]))
  }

  function FractionEnd(e: string, i: nat): (r: nat)
    requires i <= |e|
    ensures i <= r <= |e|
  {
    if i < |e| && e[i] == '.' then DigitsEnd(e, i + 1) else i
  }

  function ExponentEnd(e: string, i: nat): (r: nat)
    requires i <= |e|
    ensures i <= r <= |e|
  {
    if i < |e| && (e[i] == 'e' || e[i] == 'E') then
      if i + 1 < |e| && (e[i + 1] == '+' || e[i + 1] == '-') then DigitsEnd(e, i + 2) else DigitsEnd(e, i + 1)
    else i
  }

  function NumberEnd(e: string, i: nat): (r: nat)
    requires i <= |e|
    ensures i <= r <= |e|
  {
    ExponentEnd(e, FractionEnd(e, DigitsEnd(e, i)))
  }

  function WordEnd(e: string, i: nat): (r: nat)
    requires i <= |e|
    ensures i <= r <= |e|
    decreases |e| - i
  {
    if i < |e| && !IsDelimiter(e[i]) then WordEnd(e, i + 1) else i
  }

  datatype Step = Skip | Found(token: Token, next: nat) | Bad(unterminated: bool)

  /** What is at an index: a blank, a token and the index after it, or nothing that can be a token. */
  function StepAt(e: string, i: nat): (r: Step)
    requires i < |e|
    ensures r.Found? ==> i < r.next <= |e|
  {
    var c := e[i];
    if IsBlank(c) then Skip
    else if Mark(c).Some? then Found(Mark(c).value, i + 1)
    else if c == '\'' || c == '"' then
      match StringEnd(e, i + 1, c) case None => Bad(true) case Some(n) => Found(Token(String, e[i..n]), n)
    else if i + 1 < |e| && IsPair(c, e[i + 1]) then Found(Token(Operator, e[i..i + 2]), i + 2)
    else if IsSign(c) then Found(Token(Operator, e[i..i + 1]), i + 1)
    else if NumberStart(e, i) then
      NumberMoves(e, i);
      Found(Token(Number, e[i..NumberEnd(e, i)]), NumberEnd(e, i))
    else
      var n := WordEnd(e, i);
      if n == i then Bad(false) else Found(Token(Word, e[i..n]), n)
  }

  lemma NumberMoves(e: string, i: nat)
    requires i < |e| && NumberStart(e, i)
    ensures NumberEnd(e, i) > i
  {
  }

  /** The tokens from an index on, and the end. */
  function Scan<E>(e: string, i: nat): Result<seq<Token>, Failure<E>>
    requires i <= |e|
    decreases |e| - i
  {
    if i == |e| then Ok([END])
    else
      match StepAt(e, i)
      case Skip => Scan(e, i + 1)
      case Bad(unterminated) => Err(if unterminated then Unterminated else InvalidNear)
      case Found(t, n) => (match Scan<E>(e, n) case Err(x) => Err(x) case Ok(ts) => Ok([t] + ts))
  }

  function After<E>(tokens: seq<Token>, r: Result<seq<Token>, Failure<E>>): Result<seq<Token>, Failure<E>> {
    match r case Err(x) => Err(x) case Ok(ts) => Ok(tokens + ts)
  }

  lemma AfterMore<E>(tokens: seq<Token>, t: Token, r: Result<seq<Token>, Failure<E>>)
    ensures After(tokens, After([t], r)) == After(tokens + [t], r)
    ensures After([], r) == r
  {
    if r.Ok? {
      assert tokens + ([t] + r.value) == tokens + [t] + r.value;
      assert [] + r.value == r.value;
    }
  }

  method ScanExpressionString(e: string, start: nat) returns (next: Option<nat>)
    requires start < |e|
    ensures next == StringEnd(e, start + 1, e[start])
  {
    var quote := e[start];
    var index := start + 1;
    while index < |e|
      invariant start < index
      invariant StringEnd(e, start + 1, quote) == StringEnd(e, index, quote)
    {
      if e[index] == '\\' && quote == '"' {
        index := index + 2;
        continue;
      }
      if e[index] == quote {
        return Some(index + 1);
      }
      index := index + 1;
    }
    return None;
  }

  method SkipDigits(e: string, start: nat) returns (index: nat)
    requires start <= |e|
    ensures index == DigitsEnd(e, start)
  {
    index := start;
    while index < |e| && '0' <= e[index] <= '9'
      invariant start <= index <= |e| && DigitsEnd(e, start) == DigitsEnd(e, index)
    {
      index := index + 1;
    }
  }

  method ScanExpressionNumber(e: string, start: nat) returns (index: nat)
    requires start <= |e|
    ensures index == NumberEnd(e, start)
  {
    index := SkipDigits(e, start);
    if index < |e| && e[index] == '.' {
      index := SkipDigits(e, index + 1);
    }
    if index < |e| && (e[index] == 'e' || e[index] == 'E') {
      index := index + 1;
      if index < |e| && (e[index] == '+' || e[index] == '-') {
        index := index + 1;
      }
      index := SkipDigits(e, index);
    }
  }

  /** One token, or none for a blank. */
  method ScanStep(e: string, start: nat) returns (r: Step)
    requires start < |e|
    ensures r == StepAt(e, start)
  {
    hide StringEnd, NumberEnd, IsDelimiter, Mark;
    var c := e[start];
    if c == ' ' || c == '\t' || c == '\r' || c == '\n' {
      return Skip;
    }
    if Mark(c).Some? {
      return Found(Mark(c).value, start + 1);
    }
    if c == '\'' || c == '"' {
      var next := ScanExpressionString(e, start);
      if next.None? {
        return Bad(true);
      }
      return Found(Token(String, e[start..next.value]), next.value);
    }
    if start + 1 < |e| && IsPair(c, e[start + 1]) {
      return Found(Token(Operator, e[start..start + 2]), start + 2);
    }
    if IsSign(c) {
      return Found(Token(Operator, e[start..start + 1]), start + 1);
    }
    if NumberStart(e, start) {
      var next := ScanExpressionNumber(e, start);
      return Found(Token(Number, e[start..next]), next);
    }
    var index := start;
    while index < |e| && !IsDelimiter(e[index])
      invariant start <= index <= |e| && WordEnd(e, start) == WordEnd(e, index)
    {
      index := index + 1;
    }
    if index == start {
      return Bad(false);
    }
    return Found(Token(Word, e[start..index]), index);
  }

  method ScanExpressionTokens<E>(e: string) returns (r: Result<seq<Token>, Failure<E>>)
    ensures r == Scan(e, 0)
  {
    hide StepAt;
    var tokens := [];
    var index := 0;
    AfterMore(tokens, END, Scan<E>(e, 0));
    while index < |e|
      invariant index <= |e|
      invariant After(tokens, Scan<E>(e, index)) == Scan(e, 0)
    {
      var step := ScanStep(e, index);
      match step {
        case Skip => index := index + 1;
        case Bad(unterminated) => return Err(if unterminated then Unterminated else InvalidNear);
        case Found(t, n) =>
          AfterMore(tokens, t, Scan<E>(e, n));
          tokens := tokens + [t];
          index := n;
      }
    }
    return Ok(tokens + [END]);
  }

  /** An expression is trimmed, must not be empty, is scanned and evaluated. */
  function EvalText<V, E>(s: Semantics<V, E>, expression: string): Result<V, Failure<E>> {
    var e := Text.TrimSpace(expression);
    if e == "" then Err(EmptyExpression)
    else match Scan<E>(e, 0) case Err(x) => Err(x) case Ok(ts) => Evaluate(s, ts)
  }

  method EvalValueExpression<V, E>(s: Semantics<V, E>, expression: string) returns (r: Result<V, Failure<E>>)
    ensures r == EvalText(s, expression)
  {
    hide Text.TrimSpace, Evaluate, Scan;
    var e := Text.TrimSpace(expression);
    if e == "" {
      return Err(EmptyExpression);
    }
    var tokens: Result<seq<Token>, Failure<E>> := ScanExpressionTokens(e);
    if tokens.Err? {
      return Err(tokens.error);
    }
    r := EvalTokens(s, tokens.value);
  }

  // ---- a text of tokens with spaces between them ----

  /** A token whose text the scanner reads as that token. */
  predicate Scannable(t: Token) {
    match t.kind
    case Word =>
      && t.text != "" && (forall c <- t.text :: !IsDelimiter(c) && !Text.IsSpace(c))
      && t.text[0] != '\'' && t.text[0] != '"' && !NumberStart(t.text, 0)
      && (|t.text| > 1 ==> !IsPair(t.text[0], t.text[1]))
    case String => t.text != "" && (t.text[0] == '\'' || t.text[0] == '"')
      && StringEnd(t.text, 1, t.text[0]) == Some(|t.text|)
    case Number => t.text != "" && NumberStart(t.text, 0) && NumberEnd(t.text, 0) == |t.text|
    case Operator => (|t.text| == 1 && IsSign(t.text[0])) || (|t.text| == 2 && IsPair(t.text[0], t.text[1]))
    case EOF => false
    case _ => |t.text| == 1 && Mark(t.text[0]) == Some(t)
  }

  /** A text stands at an index, before a space or the end. */
  predicate Standing(e: string, i: nat, text: string) {
    i + |text| <= |e| && e[i..i + |text|] == text && (i + |text| < |e| ==> e[i + |text|] == ' ')
  }

  lemma StandingAt(e: string, i: nat, text: string, k: nat)
    requires Standing(e, i, text) && k < |text|
    ensures e[i + k] == text[k]
  {
    assert e[i..i + |text|][k] == e[i + k];
  }

  lemma {:induction false} DigitsShift(e: string, i: nat, text: string, k: nat)
    requires Standing(e, i, text) && k <= |text|
    ensures DigitsEnd(e, i + k) == i + DigitsEnd(text, k)
    decreases |text| - k
  {
    if k < |text| {
      StandingAt(e, i, text, k);
      if IsDigit(text[k]) { DigitsShift(e, i, text, k + 1); }
    }
  }

  lemma NumberShift(e: string, i: nat, text: string)
    requires Standing(e, i, text)
    ensures NumberEnd(e, i) == i + NumberEnd(text, 0)
  {
    hide DigitsEnd;
    DigitsShift(e, i, text, 0);
    var j := DigitsEnd(text, 0);
    FractionShift(e, i, text, j);
    ExponentShift(e, i, text, FractionEnd(text, j));
  }

  lemma FractionShift(e: string, i: nat, text: string, k: nat)
    requires Standing(e, i, text) && k <= |text|
    ensures FractionEnd(e, i + k) == i + FractionEnd(text, k)
  {
    if k < |text| {
      StandingAt(e, i, text, k);
      DigitsShift(e, i, text, k + 1);
    }
  }

  lemma ExponentShift(e: string, i: nat, text: string, k: nat)
    requires Standing(e, i, text) && k <= |text|
    ensures ExponentEnd(e, i + k) == i + ExponentEnd(text, k)
  {
    if k < |text| {
      StandingAt(e, i, text, k);
      DigitsShift(e, i, text, k + 1);
      if k + 1 < |text| {
        StandingAt(e, i, text, k + 1);
        DigitsShift(e, i, text, k + 2);
      }
    }
  }

  lemma {:induction false} StringShift(e: string, i: nat, text: string, k: nat, quote: char)
    requires Standing(e, i, text) && StringEnd(text, k, quote) == Some(|text|)
    ensures StringEnd(e, i + k, quote) == Some(i + |text|)
    decreases |text| - k
  {
    StandingAt(e, i, text, k);
    if text[k] == '\\' && quote == '"' {
      StringShift(e, i, text, k + 2, quote);
    } else if text[k] != quote {
      StringShift(e, i, text, k + 1, quote);
    }
  }

  lemma {:induction false} WordShift(e: string, i: nat, text: string, k: nat)
    requires Standing(e, i, text) && k <= |text| && forall c <- text :: !IsDelimiter(c)
    ensures WordEnd(e, i + k) == i + |text|
    decreases |text| - k
  {
    if k < |text| {
      StandingAt(e, i, text, k);
      assert text[k] in text;
      WordShift(e, i, text, k + 1);
    }
  }

  /** A scannable token is found where its text stands. */
  lemma TokenFound(e: string, i: nat, t: Token)
    requires Scannable(t) && Standing(e, i, t.text)
    ensures i < |e| && StepAt(e, i) == Found(t, i + |t.text|)
  {
    hide Standing, StringEnd, NumberEnd, WordEnd;
    match t.kind
    case Word => WordFound(e, i, t);
    case String => StringFound(e, i, t);
    case Number => NumberFound(e, i, t);
    case Operator => OperatorFoundAt(e, i, t);
    case _ => MarkFound(e, i, t);
  }

  lemma MarkFound(e: string, i: nat, t: Token)
    requires |t.text| == 1 && Mark(t.text[0]) == Some(t) && Standing(e, i, t.text)
    ensures i < |e| && StepAt(e, i) == Found(t, i + 1)
  {
    StandingAt(e, i, t.text, 0);
  }

  lemma StringFound(e: string, i: nat, t: Token)
    requires t.kind == String && Scannable(t) && Standing(e, i, t.text)
    ensures i < |e| && StepAt(e, i) == Found(t, i + |t.text|)
  {
    StandingAt(e, i, t.text, 0);
    StringShift(e, i, t.text, 1, t.text[0]);
  }

  lemma NumberFound(e: string, i: nat, t: Token)
    requires t.kind == Number && Scannable(t) && Standing(e, i, t.text)
    ensures i < |e| && StepAt(e, i) == Found(t, i + |t.text|)
  {
    hide NumberEnd;
    StandingAt(e, i, t.text, 0);
    NumberShift(e, i, t.text);
    if |t.text| > 1 { StandingAt(e, i, t.text, 1); }
  }

  lemma OperatorFoundAt(e: string, i: nat, t: Token)
    requires t.kind == Operator && Scannable(t) && Standing(e, i, t.text)
    ensures i < |e| && StepAt(e, i) == Found(t, i + |t.text|)
  {
    hide StringEnd, NumberEnd, NumberStart, WordEnd, IsDelimiter;
    StandingAt(e, i, t.text, 0);
    if |t.text| > 1 {
      StandingAt(e, i, t.text, 1);
      PairStart(t.text[0], t.text[1]);
    } else {
      OperatorStart(t.text[0]);
      assert i + 1 < |e| ==> e[i + 1] == ' ';
    }
  }

  lemma OperatorStart(c: char)
    requires IsSign(c)
    ensures !IsBlank(c) && Mark(c).None? && c != '\'' && c != '"' && !IsPair(c, ' ')
  {
  }

  lemma PairStart(c: char, d: char)
    requires IsPair(c, d)
    ensures !IsBlank(c) && Mark(c).None? && c != '\'' && c != '"'
  {
  }

  lemma WordFound(e: string, i: nat, t: Token)
    requires t.kind == Word && Scannable(t) && Standing(e, i, t.text)
    ensures i < |e| && StepAt(e, i) == Found(t, i + |t.text|)
  {
    StandingAt(e, i, t.text, 0);
    assert t.text[0] in t.text;
    WordShift(e, i, t.text, 0);
    if |t.text| > 1 { StandingAt(e, i, t.text, 1); }
    PlainCharacter(t.text[0]);
  }

  lemma PlainCharacter(c: char)
    requires !IsDelimiter(c)
    ensures !IsBlank(c) && Mark(c).None? && !IsSign(c)
  {
  }

  function TextsOf(ts: seq<Token>): seq<string> {
    if ts == [] then [] else [ts[0].text] + TextsOf(ts[1..])
  }

  /** The tokens as a text. */
  function Spaced(ts: seq<Token>): string {
    Text.Join(TextsOf(ts), " ")
  }

  lemma SpacedFirst(ts: seq<Token>)
    requires ts != []
    ensures Spaced(ts) == if |ts| == 1 then ts[0].text else ts[0].text + " " + Spaced(ts[1..])
  {
    var texts := TextsOf(ts);
    assert texts[0] == ts[0].text && texts[1..] == TextsOf(ts[1..]);
    if |ts| == 1 { assert ts[1..] == []; } else { assert |TextsOf(ts[1..])| > 0; }
  }

  /** Scanning the text of some tokens, from where it begins. */
  lemma {:induction false} ScanSpaced<E>(before: string, ts: seq<Token>)
    requires ts != [] && forall t <- ts :: Scannable(t)
    ensures Scan<E>(before + Spaced(ts), |before|) == Ok(ts + [END])
    decreases |ts|
  {
    hide Scannable, StepAt, Spaced;
    var e, i, t := before + Spaced(ts), |before|, ts[0];
    assert t in ts;
    SpacedFirst(ts);
    if |ts| == 1 {
      assert Standing(e, i, t.text) by { assert e[i..i + |t.text|] == t.text; }
      TokenFound(e, i, t);
      LastScanned<E>(e, i, t);
      assert ts == [t];
    } else {
      var more := before + t.text + " ";
      assert e == more + Spaced(ts[1..]);
      assert Standing(e, i, t.text) by { assert e[i..i + |t.text|] == t.text; }
      TokenFound(e, i, t);
      ScanSpaced<E>(more, ts[1..]);
      SpaceScanned<E>(e, i, t, ts[1..] + [END]);
      assert [t] + (ts[1..] + [END]) == ts + [END];
    }
  }

  lemma LastScanned<E>(e: string, i: nat, t: Token)
    requires i < |e| && StepAt(e, i) == Found(t, |e|)
    ensures Scan<E>(e, i) == Ok([t] + [END])
  {
    hide StepAt;
  }

  lemma SpaceScanned<E>(e: string, i: nat, t: Token, rest: seq<Token>)
    requires i < |e| && StepAt(e, i) == Found(t, i + |t.text|) && i + |t.text| < |e| && e[i + |t.text|] == ' '
    requires Scan<E>(e, i + |t.text| + 1) == Ok(rest)
    ensures Scan<E>(e, i) == Ok([t] + rest)
  {
    hide StepAt;
    var n := i + |t.text|;
    BlankSkipped(e, n);
    assert Scan<E>(e, n) == Ok(rest);
  }

  /** Blanks, tabs and line ends are passed over. */
  lemma BlankSkipped(e: string, i: nat)
    requires i < |e| && e[i] in " \t\r\n"
    ensures StepAt(e, i) == Skip
  {
  }

  // ---- the tokens of a tree as a text ----

  /** The characters that end a word, other than white space. */
  const MARKS := "(){},?:!><=+-*/%"

  /** A quoted text without its own quote in it; in double quotes any character may follow a backslash. */
  predicate Quotable(body: string, quote: char) {
    if body == "" then true
    else if quote == '"' && body[0] == '\\' then |body| > 1 && Quotable(body[2..], quote)
    else body[0] != quote && Quotable(body[1..], quote)
  }

  /** Decimal digits, none or more. */
  predicate OnlyDigits(s: string) {
    forall c <- s :: '0' <= c <= '9'
  }

  /** A number written out: a whole part, a fraction and an exponent, of which the last two may be missing. */
  datatype Numeral = Numeral(whole: string, fraction: Option<string>, exponent: Option<(string, string)>)

  predicate GoodNumeral(n: Numeral) {
    && OnlyDigits(n.whole)
    && (n.fraction.Some? ==> OnlyDigits(n.fraction.value))
    && (n.whole != "" || (n.fraction.Some? && n.fraction.value != ""))
    && (n.exponent.Some? ==>
          && n.exponent.value.0 in {"e", "E", "e+", "E+", "e-", "E-"}
          && OnlyDigits(n.exponent.value.1))
  }

  function FractionText(fraction: Option<string>): string {
    match fraction case None => "" case Some(digits) => "." + digits
  }

  function ExponentText(exponent: Option<(string, string)>): string {
    match exponent case None => "" case Some((sign, digits)) => sign + digits
  }

  function NumeralText(n: Numeral): string {
    n.whole + FractionText(n.fraction) + ExponentText(n.exponent)
  }

  /** How the tokens of an expression are written. */
  ghost predicate Legible(t: Token) {
    match t.kind
    case Word =>
      && t.text != "" && (forall c <- t.text :: c !in MARKS && !Text.IsSpace(c))
      && t.text[0] != '\'' && t.text[0] != '"' && !('0' <= t.text[0] <= '9')
      && (|t.text| > 1 ==>
            t.text[..2] != "&&" && t.text[..2] != "||" && !(t.text[0] == '.' && '0' <= t.text[1] <= '9'))
    case String =>
      && |t.text| >= 2 && (t.text[0] == '\'' || t.text[0] == '"') && t.text[|t.text| - 1] == t.text[0]
      && Quotable(t.text[1..|t.text| - 1], t.text[0])
    case Number => exists n :: GoodNumeral(n) && t.text == NumeralText(n)
    case Operator => t.text in {"==", "!=", ">=", "<=", ">", "<", "&&", "||", "!", "+", "-", "*", "/", "%"}
    case LParen => t.text == "("
    case RParen => t.text == ")"
    case LBrace => t.text == "{"
    case RBrace => t.text == "}"
    case Comma => t.text == ","
    case Question => t.text == "?"
    case Colon => t.text == ":"
    case EOF => false
  }

  lemma WordScannable(t: Token)
    requires Legible(t) && t.kind == Word
    ensures Scannable(t)
  {
    forall c | c in t.text
      ensures !IsDelimiter(c)
    {
      assert c !in MARKS;
    }
    assert t.text[0] in t.text;
    if |t.text| > 1 {
      assert t.text[1] in t.text && '=' in MARKS;
      assert t.text[..2] == [t.text[0], t.text[1]];
    }
  }

  lemma {:induction false} QuoteScanned(text: string, k: nat, quote: char)
    requires 0 < k < |text| && text[|text| - 1] == quote && (quote == '\'' || quote == '"')
    requires Quotable(text[k..|text| - 1], quote)
    ensures StringEnd(text, k, quote) == Some(|text|)
    decreases |text| - k
  {
    var body := text[k..|text| - 1];
    if body != "" {
      if quote == '"' && body[0] == '\\' {
        assert body[2..] == text[k + 2..|text| - 1];
        QuoteScanned(text, k + 2, quote);
      } else {
        assert body[1..] == text[k + 1..|text| - 1];
        QuoteScanned(text, k + 1, quote);
      }
    }
  }

  lemma {:induction false} DigitsScanned(before: string, digits: string, rest: string)
    requires OnlyDigits(digits) && (rest == "" || !('0' <= rest[0] <= '9'))
    ensures DigitsEnd(before + digits + rest, |before|) == |before| + |digits|
    decreases |digits|
  {
    var e := before + digits + rest;
    if digits == "" {
      assert rest != "" ==> e[|before|] == rest[0];
    } else {
      assert e[|before|] == digits[0] && digits[0] in digits && forall c <- digits[1..] :: c in digits;
      DigitsScanned(before + [digits[0]], digits[1..], rest);
      assert before + [digits[0]] + digits[1..] + rest == e;
    }
  }

  lemma FractionScanned(before: string, fraction: Option<string>, rest: string)
    requires (fraction.Some? ==> OnlyDigits(fraction.value)) && (rest == "" || rest[0] == 'e' || rest[0] == 'E')
    ensures FractionEnd(before + FractionText(fraction) + rest, |before|) == |before + FractionText(fraction)|
  {
    hide DigitsEnd, OnlyDigits;
    if fraction.Some? {
      var digits := fraction.value;
      DigitsScanned(before + ".", digits, rest);
      DotFirst(before, digits, rest);
    } else {
      assert before + FractionText(fraction) + rest == before + rest;
      assert rest != "" ==> (before + rest)[|before|] == rest[0];
    }
  }

  lemma DotFirst(before: string, digits: string, rest: string)
    ensures before + "." + digits + rest == before + ("." + digits) + rest
    ensures (before + ("." + digits) + rest)[|before|] == '.'
  {
  }

  lemma ExponentScanned(before: string, sign: string, digits: string)
    requires sign in {"e", "E", "e+", "E+", "e-", "E-"} && OnlyDigits(digits)
    ensures var e := before + (sign + digits); ExponentEnd(e, |before|) == |e|
  {
    hide DigitsEnd;
    var e := before + (sign + digits);
    DigitsScanned(before + sign, digits, "");
    assert before + sign + digits + "" == e && e[|before|] == sign[0];
    if |sign| == 2 {
      assert e[|before| + 1] == sign[1];
    } else if digits != "" {
      assert e[|before| + 1] == digits[0] && digits[0] in digits;
    }
  }

  lemma NumberScanned(n: Numeral)
    requires GoodNumeral(n)
    ensures var text := NumeralText(n); text != "" && NumberStart(text, 0) && NumberEnd(text, 0) == |text|
  {
    hide DigitsEnd, FractionEnd, ExponentEnd, OnlyDigits, NumberStart;
    var fraction, exponent := FractionText(n.fraction), ExponentText(n.exponent);
    var text := NumeralText(n);
    assert text == "" + n.whole + (fraction + exponent);
    AfterWhole(n);
    DigitsScanned("", n.whole, fraction + exponent);
    FractionScanned(n.whole, n.fraction, exponent);
    match n.exponent {
      case None => NoExponent(text);
      case Some((sign, digits)) => ExponentScanned(n.whole + fraction, sign, digits);
    }
    NumberStarts(n);
  }

  lemma AfterWhole(n: Numeral)
    requires GoodNumeral(n)
    ensures var exponent := ExponentText(n.exponent); exponent == "" || exponent[0] == 'e' || exponent[0] == 'E'
    ensures var rest := FractionText(n.fraction) + ExponentText(n.exponent); rest == "" || !('0' <= rest[0] <= '9')
  {
  }

  lemma NoExponent(text: string)
    ensures ExponentEnd(text, |text|) == |text|
  {
  }

  lemma NumberStarts(n: Numeral)
    requires GoodNumeral(n)
    ensures NumeralText(n) != "" && NumberStart(NumeralText(n), 0)
  {
    var text := NumeralText(n);
    if n.whole != "" {
      assert text[0] == n.whole[0] && n.whole[0] in n.whole;
    } else {
      assert text[0] == '.' && text[1] == n.fraction.value[0] && n.fraction.value[0] in n.fraction.value;
    }
  }

  lemma OperatorScannable(t: Token)
    requires Legible(t) && t.kind == Operator
    ensures Scannable(t)
  {
  }

  /** What is written as a token is scanned as that token. */
  lemma LegibleScannable(t: Token)
    requires Legible(t)
    ensures Scannable(t)
  {
    match t.kind
    case Word => WordScannable(t);
    case String => QuoteScanned(t.text, 1, t.text[0]);
    case Number =>
      var n :| GoodNumeral(n) && t.text == NumeralText(n);
      NumberScanned(n);
    case Operator => OperatorScannable(t);
    case _ =>
  }

  /** All tokens of a tree can be written down. */
  ghost predicate Writable(ts: seq<Token>) {
    forall t <- ts :: Legible(t)
  }

  lemma WritableScannable(ts: seq<Token>)
    requires Writable(ts)
    ensures forall t <- ts :: Scannable(t)
  {
    hide Legible, Scannable;
    forall t | t in ts
      ensures Scannable(t)
    {
      LegibleScannable(t);
    }
  }

  lemma {:induction false} TrimmedSpaced(ts: seq<Token>)
    requires ts != [] && forall t <- ts :: Scannable(t)
    ensures Spaced(ts) != "" && Edge(Spaced(ts)[0]) && Edge(Spaced(ts)[|Spaced(ts)| - 1])
    decreases |ts|
  {
    hide Scannable, Spaced;
    assert ts[0] in ts;
    SpacedFirst(ts);
    ScannableEdges(ts[0]);
    if |ts| > 1 { TrimmedSpaced(ts[1..]); }
  }

  predicate Edge(c: char) {
    !Text.IsSpace(c)
  }

  lemma ScannableEdges(t: Token)
    requires Scannable(t)
    ensures t.text != "" && Edge(t.text[0]) && Edge(t.text[|t.text| - 1])
  {
    hide DigitsEnd;
    match t.kind
    case Word => { assert t.text[0] in t.text && t.text[|t.text| - 1] in t.text; }
    case String => QuoteLast(t.text, 1, t.text[0]);
    case Number => NumberEdge(t.text);
    case Operator =>
    case _ =>
  }

  lemma {:induction false} QuoteLast(text: string, k: nat, quote: char)
    requires StringEnd(text, k, quote) == Some(|text|)
    ensures text != "" && text[|text| - 1] == quote
    decreases |text| - k
  {
    if text[k] == '\\' && quote == '"' {
      QuoteLast(text, k + 2, quote);
    } else if text[k] != quote {
      QuoteLast(text, k + 1, quote);
    }
  }

  predicate NumberCharacter(c: char) {
    IsDigit(c) || c == '.' || c == 'e' || c == 'E' || c == '+' || c == '-'
  }

  lemma {:induction false} DigitsOnly(e: string, i: nat)
    requires i <= |e|
    ensures forall k :: i <= k < DigitsEnd(e, i) ==> NumberCharacter(e[k])
    decreases |e| - i
  {
    if i < |e| && IsDigit(e[i]) { DigitsOnly(e, i + 1); }
  }

  lemma NumberEdge(text: string)
    requires text != "" && NumberStart(text, 0) && NumberEnd(text, 0) == |text|
    ensures Edge(text[0]) && Edge(text[|text| - 1])
  {
    hide DigitsEnd;
    var i := DigitsEnd(text, 0);
    var j := FractionEnd(text, i);
    DigitsOnly(text, 0);
    if i < |text| { DigitsOnly(text, i + 1); }
    if j < |text| {
      DigitsOnly(text, j + 1);
      if j + 1 < |text| { DigitsOnly(text, j + 2); }
    }
    assert NumberCharacter(text[|text| - 1]);
  }

  lemma TrimEdges(s: string)
    requires s != "" && Edge(s[0]) && Edge(s[|s| - 1])
    ensures Text.TrimSpace(s) == s
  {
  }

  /**
   Every well-formed tree, written with only the parentheses precedence asks for and spaces between its tokens, is
   scanned and parsed to its end, and gives the strict value or error of the tree.
   */
  lemma WrittenTreeEvaluates<V, E>(s: Semantics<V, E>, e: Expr)
    requires WellFormed(e) && Writable(Print(e, 0))
    ensures EvalText(s, Spaced(Print(e, 0))) == Eval(s, e)
  {
    hide Text.TrimSpace, Spaced, Scannable, Writable, Evaluate, Eval, Print, Scan;
    var ts := Print(e, 0);
    var text := Spaced(ts);
    PrintStarts(e, 0);
    WritableScannable(ts);
    TrimmedSpaced(ts);
    TrimEdges(text);
    ScanSpaced<E>("", ts);
    assert "" + text == text;
    PrintedTreeEvaluates(s, e);
  }
}
