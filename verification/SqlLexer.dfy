/**
 The lexical structure the SQL scanners of interceptor.go agree on: comments, string literals, quoted and bracketed
 identifiers, `#{}`/`${}` placeholders, parentheses, words, white space, and single other characters.

 A query is a sequence of characters, one per byte of the Go string. `Cut` finds the lexeme that starts at an index and
 `Lex` cuts a whole text. The lemmas say when cutting commutes with taking prefixes, suffixes and concatenations.
 */
module SqlLexer {

  predicate IsIdentStart(c: char) {
    c == '_' || 'a' <= c <= 'z' || 'A' <= c <= 'Z'
  }

  predicate IsIdentPart(c: char) {
    IsIdentStart(c) || '0' <= c <= '9'
  }

  predicate IsSqlSpace(c: char) {
    c == ' ' || c == '\t' || c == '\n' || c == '\r' || c == '\U{000C}'
  }

  /** Characters that never continue a closed lexeme before them. */
  predicate IsBreak(c: char) {
    IsSqlSpace(c) || c == ',' || c == ')'
  }

  datatype Kind = Space | Comment | Literal | Placeholder | Quoted | Bracketed | Open | Close | Word | Other

  /** The kinds of one character that mean the same whatever comes next. */
  predicate StandsAlone(k: Kind) {
    k.Space? || k.Open? || k.Close?
  }

  /** A piece of text; `closed` is false when the text ended before the lexeme's own terminator. */
  datatype Lexeme = Lexeme(kind: Kind, text: string, closed: bool)

  /** What starts at an index: its kind, the index after it, and whether it is closed. */
  datatype Extent = Extent(kind: Kind, end: nat, closed: bool)

  // ---- where a lexeme ends ----

  /** The first newline at or after `i`, or the end of the text. */
  function LineEnd(q: string, i: nat): (e: nat)
    requires i <= |q|
    ensures i <= e <= |q|
    decreases |q| - i
  {
    if i == |q| || q[i] == '\n' then i else LineEnd(q, i + 1)
  }

  /** The index after the next comment terminator. */
  function BlockEnd(q: string, i: nat): (r: (nat, bool))
    requires i <= |q|
    ensures i <= r.0 <= |q|
    ensures if r.1 then i < r.0 && q[r.0 - 1] == '/' else r.0 == |q|
    decreases |q| - i
  {
    if i + 1 >= |q| then (|q|, false)
    else if q[i] == '*' && q[i + 1] == '/' then (i + 2, true)
    else BlockEnd(q, i + 1)
  }

  /** The index after the next closing brace. */
  function BraceEnd(q: string, i: nat): (r: (nat, bool))
    requires i <= |q|
    ensures i <= r.0 <= |q|
    ensures if r.1 then i < r.0 && q[r.0 - 1] == '}' else r.0 == |q|
    decreases |q| - i
  {
    if i == |q| then (|q|, false)
    else if q[i] == '}' then (i + 1, true)
    else BraceEnd(q, i + 1)
  }

  /** The index after the next `quote` that is not doubled. */
  function QuoteEnd(q: string, i: nat, quote: char): (r: (nat, bool))
    requires i <= |q|
    ensures i <= r.0 <= |q|
    ensures if r.1 then i < r.0 && q[r.0 - 1] == quote else r.0 == |q|
    decreases |q| - i
  {
    if i == |q| then (|q|, false)
    else if q[i] != quote then QuoteEnd(q, i + 1, quote)
    else if i + 1 < |q| && q[i + 1] == quote then QuoteEnd(q, i + 2, quote)
    else (i + 1, true)
  }

  /** The end of the run of identifier characters. */
  function WordEnd(q: string, i: nat): (e: nat)
    requires i <= |q|
    ensures i <= e <= |q|
    ensures forall k :: i <= k < e ==> IsIdentPart(q[k])
    decreases |q| - i
  {
    if i == |q| || !IsIdentPart(q[i]) then i else WordEnd(q, i + 1)
  }

  /** The kind of lexeme that starts with `c` when `d` comes next. */
  function KindOf(c: char, d: char): Kind {
    if c == '-' && d == '-' then Comment
    else if c == '/' && d == '*' then Comment
    else if c == '\'' then Literal
    else if (c == '#' || c == '$') && d == '{' then Placeholder
    else if c == '"' || c == '`' then Quoted
    else if c == '[' then Bracketed
    else if c == '(' then Open
    else if c == ')' then Close
    else if IsIdentStart(c) then Word
    else if IsSqlSpace(c) then Space
    else Other
  }

  /** The kind of lexeme that starts at `i`; nothing two characters long starts at the last one. */
  function KindAt(q: string, i: nat): (k: Kind)
    requires i < |q|
    ensures k.Comment? || k.Placeholder? ==> i + 2 <= |q|
  {
    KindOf(q[i], if i + 1 < |q| then q[i + 1] else ' ')
  }

  /** Where the lexeme of kind `k` that starts at `i` ends, and whether it is closed. */
  function SpanAt(q: string, i: nat, k: Kind): (r: (nat, bool))
    requires i < |q| && (k.Comment? || k.Placeholder? ==> i + 2 <= |q|)
    ensures i < r.0 <= |q|
  {
    match k
    case Comment =>
      if q[i] == '-' then (LineEnd(q, i + 2), LineEnd(q, i + 2) < |q|) else BlockEnd(q, i + 2)
    case Literal => QuoteEnd(q, i + 1, '\'')
    case Placeholder => BraceEnd(q, i + 2)
    case Quoted => QuoteEnd(q, i + 1, q[i])
    case Bracketed => QuoteEnd(q, i + 1, ']')
    case Word => (WordEnd(q, i + 1), true)
    case _ => (i + 1, true)
  }

  /** The lexeme that starts at `i`. */
  function Cut(q: string, i: nat): (x: Extent)
    requires i < |q|
    ensures i < x.end <= |q|
  {
    var k := KindAt(q, i);
    var r := SpanAt(q, i, k);
    Extent(k, r.0, r.1)
  }

  /** The lexemes of `q` from index `i` on. */
  function Lex(q: string, i: nat): (ls: seq<Lexeme>)
    requires i <= |q|
    decreases |q| - i
  {
    if i == |q| then []
    else
      var x := Cut(q, i);
      [Lexeme(x.kind, q[i..x.end], x.closed)] + Lex(q, x.end)
  }

  /** The total length of a sequence of lexemes. */
  function Width(ls: seq<Lexeme>): (n: nat) {
    if ls == [] then 0 else |ls[0].text| + Width(ls[1..])
  }

  predicate AllClosed(ls: seq<Lexeme>) {
    forall l <- ls :: l.closed
  }

  /** No lexeme is cut short by the end of the text, except perhaps a comment. */
  predicate Tidy(ls: seq<Lexeme>) {
    forall l <- ls :: l.kind.Comment? || l.closed
  }

  predicate IsBlank(l: Lexeme) {
    l.kind.Space? || l.kind.Comment?
  }

  /** The lexemes that carry meaning: all but white space and comments. */
  function Sig(ls: seq<Lexeme>): (ts: seq<Lexeme>)
    ensures |ts| <= |ls|
    ensures forall t <- ts :: !IsBlank(t) && t in ls
  {
    if ls == [] then []
    else if IsBlank(ls[0]) then Sig(ls[1..])
    else [ls[0]] + Sig(ls[1..])
  }

  /** The meaningful lexemes of a text. */
  function Tokens(q: string): seq<Lexeme> {
    Sig(Lex(q, 0))
  }

  // ---- cutting and slicing ----

  /** Two texts that agree up to `n`, where the first one goes no further than `n`. */
  predicate Agree(p: string, q: string, n: nat) {
    n == |p| <= |q| && p == q[..n]
  }

  lemma {:induction false} LineEndAgree(p: string, q: string, i: nat)
    requires i <= |p| && Agree(p, q, |p|)
    ensures LineEnd(q, i) < |p| ==> LineEnd(p, i) == LineEnd(q, i)
    ensures LineEnd(q, i) >= |p| ==> LineEnd(p, i) == |p|
    decreases |p| - i
  {
    if i < |p| && p[i] != '\n' { LineEndAgree(p, q, i + 1); }
  }

  lemma {:induction false} BlockEndAgree(p: string, q: string, i: nat)
    requires i <= |p| && Agree(p, q, |p|)
    ensures BlockEnd(p, i).1 ==> BlockEnd(q, i) == BlockEnd(p, i)
    ensures BlockEnd(q, i).1 && BlockEnd(q, i).0 <= |p| ==> BlockEnd(p, i) == BlockEnd(q, i)
    decreases |p| - i
  {
    if i + 1 < |p| && !(p[i] == '*' && p[i + 1] == '/') { BlockEndAgree(p, q, i + 1); }
  }

  lemma {:induction false} BraceEndAgree(p: string, q: string, i: nat)
    requires i <= |p| && Agree(p, q, |p|)
    ensures BraceEnd(p, i).1 ==> BraceEnd(q, i) == BraceEnd(p, i)
    ensures BraceEnd(q, i).1 && BraceEnd(q, i).0 <= |p| ==> BraceEnd(p, i) == BraceEnd(q, i)
    decreases |p| - i
  {
    if i < |p| && p[i] != '}' { BraceEndAgree(p, q, i + 1); }
  }

  lemma {:induction false} QuoteEndAgree(p: string, q: string, i: nat, quote: char)
    requires i <= |p| && Agree(p, q, |p|)
    ensures QuoteEnd(p, i, quote).1 && (QuoteEnd(p, i, quote).0 < |p| || |p| == |q| || q[|p|] != quote)
            ==> QuoteEnd(q, i, quote) == QuoteEnd(p, i, quote)
    ensures QuoteEnd(q, i, quote).1 && QuoteEnd(q, i, quote).0 <= |p| ==> QuoteEnd(p, i, quote) == QuoteEnd(q, i, quote)
    decreases |p| - i
  {
    if i < |p| {
      if p[i] != quote {
        QuoteEndAgree(p, q, i + 1, quote);
      } else if i + 1 < |p| && p[i + 1] == quote {
        QuoteEndAgree(p, q, i + 2, quote);
      }
    }
  }

  lemma {:induction false} WordEndAgree(p: string, q: string, i: nat)
    requires i <= |p| && Agree(p, q, |p|)
    ensures WordEnd(p, i) < |p| || |p| == |q| || !IsIdentPart(q[|p|]) ==> WordEnd(q, i) == WordEnd(p, i)
    ensures WordEnd(q, i) <= |p| ==> WordEnd(p, i) == WordEnd(q, i)
    decreases |p| - i
  {
    if i < |p| && IsIdentPart(p[i]) { WordEndAgree(p, q, i + 1); }
  }

  lemma KindAtAgree(p: string, q: string, i: nat)
    requires i < |p| && Agree(p, q, |p|)
    requires i + 1 < |p| || |p| == |q| || IsBreak(q[|p|])
    ensures KindAt(p, i) == KindAt(q, i)
  {
    assert p[i] == q[i] && (i + 1 < |p| ==> p[i + 1] == q[i + 1]);
  }

  lemma SpanExtend(p: string, q: string, i: nat, k: Kind)
    requires i < |p| && Agree(p, q, |p|) && (k.Comment? || k.Placeholder? ==> i + 2 <= |p|)
    requires SpanAt(p, i, k).1
    requires SpanAt(p, i, k).0 < |p| || |p| == |q| || IsBreak(q[|p|])
    requires k.Quoted? ==> q[i] == '"' || q[i] == '`'
    ensures SpanAt(q, i, k) == SpanAt(p, i, k)
  {
    hide LineEnd, BlockEnd, BraceEnd, QuoteEnd, WordEnd;
    assert p[i] == q[i];
    match k
    case Comment =>
      if q[i] == '-' { LineEndAgree(p, q, i + 2); } else { BlockEndAgree(p, q, i + 2); }
    case Placeholder => BraceEndAgree(p, q, i + 2);
    case Literal => QuoteEndAgree(p, q, i + 1, '\'');
    case Quoted => QuoteEndAgree(p, q, i + 1, q[i]);
    case Bracketed => QuoteEndAgree(p, q, i + 1, ']');
    case Word => WordEndAgree(p, q, i + 1);
    case _ =>
  }

  /** A closed lexeme is not changed by what is appended, as long as it cannot run on into it. */
  lemma CutExtend(p: string, q: string, i: nat)
    requires i < |p| && Agree(p, q, |p|)
    requires Cut(p, i).closed
    requires Cut(p, i).end < |p| || |p| == |q| || IsBreak(q[|p|]) || StandsAlone(Cut(p, i).kind)
    ensures Cut(q, i) == Cut(p, i)
  {
    hide SpanAt;
    assert p[i] == q[i] && (i + 1 < |p| ==> p[i + 1] == q[i + 1]);
    var k := KindAt(p, i);
    if StandsAlone(k) {
      AloneSpan(p, i, k);
      AloneSpan(q, i, k);
    } else {
      KindAtAgree(p, q, i);
      SpanExtend(p, q, i, k);
    }
  }

  lemma AloneSpan(q: string, i: nat, k: Kind)
    requires i < |q| && StandsAlone(k)
    ensures SpanAt(q, i, k) == (i + 1, true)
  {
  }

  lemma SpanTruncate(p: string, q: string, i: nat, k: Kind)
    requires i < |p| && Agree(p, q, |p|) && (k.Comment? || k.Placeholder? ==> i + 2 <= |p|)
    requires SpanAt(q, i, k).1 && SpanAt(q, i, k).0 <= |p|
    ensures SpanAt(p, i, k).0 == SpanAt(q, i, k).0
    ensures SpanAt(p, i, k).1 || k.Comment?
  {
    hide LineEnd, BlockEnd, BraceEnd, QuoteEnd, WordEnd, IsBreak;
    assert p[i] == q[i];
    match k
    case Comment =>
      if q[i] == '-' { LineEndAgree(p, q, i + 2); } else { BlockEndAgree(p, q, i + 2); }
    case Placeholder => BraceEndAgree(p, q, i + 2);
    case Literal => QuoteEndAgree(p, q, i + 1, '\'');
    case Quoted => QuoteEndAgree(p, q, i + 1, q[i]);
    case Bracketed => QuoteEndAgree(p, q, i + 1, ']');
    case Word => WordEndAgree(p, q, i + 1);
    case _ =>
  }

  /** A two-character opener keeps its kind only when the lexeme reaches past both characters. */
  lemma KindAtTruncate(p: string, q: string, i: nat)
    requires i < |p| && Agree(p, q, |p|)
    requires SpanAt(q, i, KindAt(q, i)).0 <= |p|
    ensures KindAt(p, i) == KindAt(q, i)
  {
    assert p[i] == q[i] && (i + 1 < |p| ==> p[i + 1] == q[i + 1]);
  }

  /** A lexeme that ends inside a prefix is cut the same way there. */
  lemma CutTruncate(p: string, q: string, i: nat)
    requires i < |p| && Agree(p, q, |p|)
    requires Cut(q, i).end <= |p| && Cut(q, i).closed
    ensures Cut(p, i).kind == Cut(q, i).kind && Cut(p, i).end == Cut(q, i).end
    ensures Cut(p, i).closed || Cut(p, i).kind.Comment?
  {
    hide SpanAt, KindOf;
    KindAtTruncate(p, q, i);
    SpanTruncate(p, q, i, KindAt(q, i));
  }

  // ---- cutting a suffix ----

  lemma {:induction false} LineEndShift(q: string, n: nat, i: nat)
    requires n + i <= |q|
    ensures LineEnd(q, n + i) == n + LineEnd(q[n..], i)
    decreases |q| - i
  {
    if n + i < |q| && q[n + i] != '\n' { LineEndShift(q, n, i + 1); }
  }

  lemma {:induction false} BlockEndShift(q: string, n: nat, i: nat)
    requires n + i <= |q|
    ensures BlockEnd(q, n + i) == (n + BlockEnd(q[n..], i).0, BlockEnd(q[n..], i).1)
    decreases |q| - i
  {
    if n + i + 1 < |q| && !(q[n + i] == '*' && q[n + i + 1] == '/') { BlockEndShift(q, n, i + 1); }
  }

  lemma {:induction false} BraceEndShift(q: string, n: nat, i: nat)
    requires n + i <= |q|
    ensures BraceEnd(q, n + i) == (n + BraceEnd(q[n..], i).0, BraceEnd(q[n..], i).1)
    decreases |q| - i
  {
    if n + i < |q| && q[n + i] != '}' { BraceEndShift(q, n, i + 1); }
  }

  lemma {:induction false} QuoteEndShift(q: string, n: nat, i: nat, quote: char)
    requires n + i <= |q|
    ensures QuoteEnd(q, n + i, quote) == (n + QuoteEnd(q[n..], i, quote).0, QuoteEnd(q[n..], i, quote).1)
    decreases |q| - i
  {
    if n + i < |q| {
      if q[n + i] != quote {
        QuoteEndShift(q, n, i + 1, quote);
      } else if n + i + 1 < |q| && q[n + i + 1] == quote {
        QuoteEndShift(q, n, i + 2, quote);
      }
    }
  }

  lemma {:induction false} WordEndShift(q: string, n: nat, i: nat)
    requires n + i <= |q|
    ensures WordEnd(q, n + i) == n + WordEnd(q[n..], i)
    decreases |q| - i
  {
    if n + i < |q| && IsIdentPart(q[n + i]) { WordEndShift(q, n, i + 1); }
  }

  lemma SpanShift(q: string, n: nat, i: nat, k: Kind)
    requires n + i < |q| && (k.Comment? || k.Placeholder? ==> n + i + 2 <= |q|)
    ensures SpanAt(q, n + i, k) == (n + SpanAt(q[n..], i, k).0, SpanAt(q[n..], i, k).1)
  {
    hide LineEnd, BlockEnd, BraceEnd, QuoteEnd, WordEnd;
    assert q[n..][i] == q[n + i];
    match k
    case Comment =>
      if q[n + i] == '-' { LineEndShift(q, n, i + 2); } else { BlockEndShift(q, n, i + 2); }
    case Placeholder => BraceEndShift(q, n, i + 2);
    case Literal => QuoteEndShift(q, n, i + 1, '\'');
    case Quoted => QuoteEndShift(q, n, i + 1, q[n + i]);
    case Bracketed => QuoteEndShift(q, n, i + 1, ']');
    case Word => WordEndShift(q, n, i + 1);
    case _ =>
  }

  lemma CutShift(q: string, n: nat, i: nat)
    requires n + i < |q|
    ensures var x := Cut(q[n..], i); Cut(q, n + i) == Extent(x.kind, n + x.end, x.closed)
  {
    hide SpanAt, KindOf;
    assert KindAt(q[n..], i) == KindAt(q, n + i);
    SpanShift(q, n, i, KindAt(q, n + i));
  }

  /** Cutting a suffix gives the lexemes from that index on. */
  lemma {:induction false} LexShift(q: string, n: nat, i: nat)
    requires n + i <= |q|
    ensures Lex(q[n..], i) == Lex(q, n + i)
    decreases |q| - i
  {
    hide Cut;
    if n + i < |q| {
      CutShift(q, n, i);
      var x := Cut(q[n..], i);
      assert q[n..][i..x.end] == q[n + i..n + x.end];
      LexShift(q, n, x.end);
    }
  }

  // ---- cutting a concatenation ----

  /** `p` and `q` can be put together without joining the last lexeme of `p` to the first of `q`. */
  predicate Joins(p: string, q: string) {
    p == "" || q == "" || IsBreak(q[0]) || (Lex(p, 0) != [] && StandsAlone(Lex(p, 0)[|Lex(p, 0)| - 1].kind))
  }

  lemma {:induction false} LexConcatFrom(p: string, q: string, i: nat)
    requires i <= |p| && AllClosed(Lex(p, i))
    requires i == |p| || q == "" || IsBreak(q[0]) || StandsAlone(Lex(p, i)[|Lex(p, i)| - 1].kind)
    ensures Lex(p + q, i) == Lex(p, i) + Lex(q, 0)
    decreases |p| - i
  {
    hide Cut;
    if i == |p| {
      LexShift(p + q, |p|, 0);
      assert (p + q)[|p|..] == q;
      assert Lex(p, i) == [];
    } else {
      var x := Cut(p, i);
      var ls := Lex(p, i);
      assert ls[0].closed;
      assert ls == [ls[0]] + Lex(p, x.end);
      assert Agree(p, p + q, |p|);
      if x.end == |p| {
        assert Lex(p, x.end) == [];
        assert ls[|ls| - 1] == ls[0];
      } else {
        assert ls[|ls| - 1] == Lex(p, x.end)[|Lex(p, x.end)| - 1];
      }
      CutExtend(p, p + q, i);
      assert (p + q)[i..x.end] == p[i..x.end];
      LexConcatFrom(p, q, x.end);
      assert [ls[0]] + (Lex(p, x.end) + Lex(q, 0)) == ls + Lex(q, 0);
    }
  }

  lemma {:induction false} LexNonEmpty(q: string, i: nat)
    requires i < |q|
    ensures Lex(q, i) != [] && |Lex(q, i)[0].text| > 0
  {
  }

  /** The lexemes of a concatenation are those of its parts. */
  lemma LexConcat(p: string, q: string)
    requires AllClosed(Lex(p, 0)) && (p != "" ==> Lex(p, 0) != []) && Joins(p, q)
    ensures Lex(p + q, 0) == Lex(p, 0) + Lex(q, 0)
  {
    LexConcatFrom(p, q, 0);
  }

  // ---- splitting at a lexeme boundary ----

  /** Dropping the first `k` lexemes is cutting from where the k-th one starts. */
  lemma {:induction false} LexDrop(q: string, i: nat, k: nat)
    requires i <= |q| && k <= |Lex(q, i)|
    ensures i + Width(Lex(q, i)[..k]) <= |q|
    ensures Lex(q, i + Width(Lex(q, i)[..k])) == Lex(q, i)[k..]
    decreases k
  {
    hide Cut;
    var ls := Lex(q, i);
    if k > 0 {
      var x := Cut(q, i);
      assert ls[..k][0] == ls[0] && ls[..k][1..] == Lex(q, x.end)[..k - 1];
      LexDrop(q, x.end, k - 1);
    }
  }

  lemma TakeOne(ls: seq<Lexeme>, k: nat)
    requires k < |ls|
    ensures ls[..k + 1] == ls[..k] + [ls[k]]
  {
  }

  /** A sequence cut in two where the first part ends. */
  lemma Cutting(a: seq<Lexeme>, b: seq<Lexeme>)
    ensures (a + b)[..|a|] == a && (a + b)[|a|..] == b
  {
  }

  lemma TakeStep(q: string, i: nat, k: nat)
    requires i < |q| && 0 < k <= |Lex(q, i)|
    ensures var x := Cut(q, i);
            && Lex(q, i)[..k] == [Lexeme(x.kind, q[i..x.end], x.closed)] + Lex(q, x.end)[..k - 1]
            && Width(Lex(q, i)[..k]) == (x.end - i) + Width(Lex(q, x.end)[..k - 1])
            && (AllClosed(Lex(q, i)[..k]) ==> x.closed && AllClosed(Lex(q, x.end)[..k - 1]))
  {
    hide Cut;
    var x := Cut(q, i);
    var l := Lexeme(x.kind, q[i..x.end], x.closed);
    var rest := Lex(q, x.end)[..k - 1];
    assert Lex(q, i)[..k] == [l] + rest;
    assert ([l] + rest)[1..] == rest;
    assert l in [l] + rest && forall r <- rest :: r in [l] + rest;
  }

  lemma LexFrom(q: string, i: nat)
    requires i < |q|
    ensures var x := Cut(q, i); Lex(q, i) == [Lexeme(x.kind, q[i..x.end], x.closed)] + Lex(q, x.end)
  {
    hide Cut;
  }

  lemma LexNothing(q: string, i: nat)
    requires i <= |q|
    ensures i + Width(Lex(q, i)[..0]) <= |q|
    ensures Lex(q[..i + Width(Lex(q, i)[..0])], i) == Lex(q, i)[..0]
  {
  }

  lemma SigFirst(l: Lexeme, m: Lexeme, a: seq<Lexeme>, b: seq<Lexeme>)
    requires Sig(a) == Sig(b) && (l == m || (IsBlank(l) && IsBlank(m)))
    ensures Sig([l] + a) == Sig([m] + b)
  {
    assert ([l] + a)[1..] == a && ([m] + b)[1..] == b;
  }

  /** A prefix that ends where the k-th lexeme starts has the same meaningful lexemes. */
  lemma {:induction false} LexTake(q: string, i: nat, k: nat)
    requires i <= |q| && k <= |Lex(q, i)| && AllClosed(Lex(q, i)[..k])
    ensures i + Width(Lex(q, i)[..k]) <= |q|
    ensures Sig(Lex(q[..i + Width(Lex(q, i)[..k])], i)) == Sig(Lex(q, i)[..k])
    ensures Tidy(Lex(q[..i + Width(Lex(q, i)[..k])], i))
    decreases k
  {
    hide Cut, Lex, Sig, Width, AllClosed;
    LexDrop(q, i, k);
    if k == 0 {
      LexNothing(q, i);
    } else {
      EmptyLex(q, i);
      var x := Cut(q, i);
      TakeStep(q, i, k);
      LexFrom(q, i);
      LexTake(q, x.end, k - 1);
      var n := i + Width(Lex(q, i)[..k]);
      var p := q[..n];
      CutTruncate(p, q, i);
      var y := Cut(p, i);
      assert p[i..x.end] == q[i..x.end];
      LexFrom(p, i);
      SigFirst(Lexeme(y.kind, p[i..y.end], y.closed), Lexeme(x.kind, q[i..x.end], x.closed), Lex(p, y.end),
               Lex(q, x.end)[..k - 1]);
    }
  }

  lemma EmptyLex(q: string, i: nat)
    requires i <= |q|
    ensures i == |q| <==> Lex(q, i) == []
  {
  }

  /** The same, with all its lexemes, when what follows is not the newline that would end a line comment. */
  lemma {:induction false} LexTakeClosed(q: string, i: nat, k: nat)
    requires i <= |q| && k < |Lex(q, i)| && AllClosed(Lex(q, i)[..k])
    requires Lex(q, i)[k].text != "" && Lex(q, i)[k].text[0] != '\n'
    ensures i + Width(Lex(q, i)[..k]) <= |q|
    ensures Lex(q[..i + Width(Lex(q, i)[..k])], i) == Lex(q, i)[..k]
    decreases k
  {
    hide Cut, Lex, Width, AllClosed;
    LexDrop(q, i, k);
    if k == 0 {
      LexNothing(q, i);
    } else {
      EmptyLex(q, i);
      var x := Cut(q, i);
      TakeStep(q, i, k);
      LexFrom(q, i);
      assert Lex(q, i)[k] == Lex(q, x.end)[k - 1];
      LexTakeClosed(q, x.end, k - 1);
      var n := i + Width(Lex(q, i)[..k]);
      var p := q[..n];
      CutTruncate(p, q, i);
      LexFrom(p, i);
      EmptyLex(q, n);
      StartsNext(q, n);
      ClosedTruncate(p, q, i);
      assert p[i..x.end] == q[i..x.end];
    }
  }

  lemma StartsNext(q: string, n: nat)
    requires n < |q|
    ensures Lex(q, n) != [] && Lex(q, n)[0].text != "" && Lex(q, n)[0].text[0] == q[n]
  {
    hide Cut;
    assert q[n..Cut(q, n).end][0] == q[n];
  }

  /** A closed lexeme stays closed in a prefix that is not cut at the newline after a line comment. */
  lemma ClosedTruncate(p: string, q: string, i: nat)
    requires i < |p| < |q| && Agree(p, q, |p|) && q[|p|] != '\n'
    requires Cut(q, i).end <= |p| && Cut(q, i).closed
    ensures Cut(p, i) == Cut(q, i)
  {
    CutTruncate(p, q, i);
    if Cut(q, i).kind.Comment? {
      assert p[i] == q[i];
      if q[i] == '-' {
        LineEndAgree(p, q, i + 2);
        LineEndStops(q, i + 2);
      } else {
        BlockEndAgree(p, q, i + 2);
      }
    }
  }

  lemma LineEndStops(q: string, i: nat)
    requires i <= |q|
    ensures LineEnd(q, i) < |q| ==> q[LineEnd(q, i)] == '\n'
    decreases |q| - i
  {
  }

  // ---- trailing white space ----

  /** Only white space and comments can end in white space. */
  lemma LastSpace(q: string, i: nat)
    requires i < |q| && IsSqlSpace(q[|q| - 1])
    requires Cut(q, i).end == |q| && (Cut(q, i).kind.Comment? || Cut(q, i).closed)
    ensures Cut(q, i).kind.Space? ==> i == |q| - 1
    ensures i < |q| - 1 ==>
              && Cut(q, i).kind.Comment?
              && Cut(q[..|q| - 1], i).kind.Comment?
              && Cut(q[..|q| - 1], i).end == |q| - 1
    ensures i == |q| - 1 ==> Cut(q, i).kind.Space?
  {
    var p := q[..|q| - 1];
    var k := KindAt(q, i);
    assert k.Comment? || SpanAt(q, i, k).1;
    if i < |q| - 1 {
      assert k.Comment?;
      assert q[i + 1] == '-' || q[i + 1] == '*';
      assert i + 1 < |p|;
      KindAtAgree(p, q, i);
      if q[i] == '-' { LineEndAgree(p, q, i + 2); } else { BlockEndAgree(p, q, i + 2); }
    }
  }

  /** Appending white space to a tidy text leaves its meaningful lexemes alone. */
  lemma {:induction false} LexTrimOne(q: string, i: nat)
    requires i < |q| && Tidy(Lex(q, i)) && IsSqlSpace(q[|q| - 1])
    ensures Sig(Lex(q[..|q| - 1], i)) == Sig(Lex(q, i))
    ensures Tidy(Lex(q[..|q| - 1], i))
    decreases |q| - i
  {
    hide Cut;
    var p := q[..|q| - 1];
    var x := Cut(q, i);
    var ls := Lex(q, i);
    assert ls[0] in ls;
    if x.end < |q| {
      var rest := Lex(q, x.end);
      assert ls[1..] == rest;
      assert forall l <- rest :: l in ls;
      UnclosedEnds(q, i);
      CutTruncate(p, q, i);
      assert p[i..x.end] == q[i..x.end];
      LexTrimOne(q, x.end);
      var y := Cut(p, i);
      assert Lex(p, i) == [Lexeme(y.kind, p[i..y.end], y.closed)] + Lex(p, x.end);
    } else {
      LastSpace(q, i);
      assert Lex(q, |q|) == [] && Lex(p, |p|) == [];
      if i < |p| {
        var y := Cut(p, i);
        assert Lex(p, i) == [Lexeme(y.kind, p[i..y.end], y.closed)];
      }
    }
  }

  /** A lexeme that is not closed runs to the end of the text. */
  lemma UnclosedEnds(q: string, i: nat)
    requires i < |q|
    ensures Cut(q, i).closed || Cut(q, i).end == |q|
  {
  }

  /** Trimming white space off a tidy text keeps its meaningful lexemes. */
  lemma {:induction false} LexTrimRight(q: string, n: nat)
    requires n <= |q| && Tidy(Lex(q, 0))
    requires forall i :: n <= i < |q| ==> IsSqlSpace(q[i])
    ensures Tokens(q[..n]) == Tokens(q) && Tidy(Lex(q[..n], 0))
    decreases |q|
  {
    if n < |q| {
      var p := q[..|q| - 1];
      LexTrimOne(q, 0);
      LexTrimRight(p, n);
      assert p[..n] == q[..n];
    } else {
      assert q[..n] == q;
    }
  }
}
