/** Quoting of identifiers by the dialects, against the scanner that reads quoted identifiers back. */
module SqlQuote {
  import opened SqlLexer
  import opened SqlScan

  datatype Dialect = Question | Postgres | MySql | MariaDb | Sqlite | SqlServer | Oracle

  function OpenQuote(d: Dialect): char {
    match d
    case Question | MySql | MariaDb => '`'
    case Postgres | Sqlite | Oracle => '"'
    case SqlServer => '['
  }

  function CloseQuote(d: Dialect): char {
    if d.SqlServer? then ']' else OpenQuote(d)
  }

  /** `strings.ReplaceAll(s, c, cc)`. */
  function Doubled(s: string, c: char): (r: string) {
    if s == "" then "" else (if s[0] == c then [c, c] else [s[0]]) + Doubled(s[1..], c)
  }

  function QuoteIdent(d: Dialect, identifier: string): string {
    [OpenQuote(d)] + Doubled(identifier, CloseQuote(d)) + [CloseQuote(d)]
  }

  lemma ReadStep(q: string, i: nat, c: char)
    requires i < |q|
    ensures q[i] != c ==>
              && QuoteEnd(q, i, c) == QuoteEnd(q, i + 1, c)
              && QuotedText(q, i, c) == [q[i]] + QuotedText(q, i + 1, c)
    ensures q[i] == c && i + 1 < |q| && q[i + 1] == c
            ==> QuoteEnd(q, i, c) == QuoteEnd(q, i + 2, c) && QuotedText(q, i, c) == [c] + QuotedText(q, i + 2, c)
    ensures q[i] == c && (i + 1 == |q| || q[i + 1] != c) ==>
              QuoteEnd(q, i, c) == (i + 1, true) && QuotedText(q, i, c) == ""
  {
  }

  lemma DoubledFirst(s: string, c: char, rest: string)
    requires s != ""
    ensures Doubled(s, c) + [c] + rest == (if s[0] == c then [c, c] else [s[0]]) + (Doubled(s[1..], c) + [c] + rest)
  {
  }

  lemma DoubledStep(q: string, i: nat, s: string, c: char, rest: string)
    requires i <= |q| && q[i..] == Doubled(s, c) + [c] + rest && s != ""
    ensures i < |q| && q[i] == s[0]
    ensures s[0] == c ==> i + 1 < |q| && q[i + 1] == c && q[i + 2..] == Doubled(s[1..], c) + [c] + rest
    ensures s[0] != c ==> q[i + 1..] == Doubled(s[1..], c) + [c] + rest
  {
    hide Doubled;
    var first := if s[0] == c then [c, c] else [s[0]];
    DoubledFirst(s, c, rest);
    assert q[i..] == first + (Doubled(s[1..], c) + [c] + rest);
    assert q[i..][|first|..] == q[i + |first|..];
    assert q[i] == q[i..][0];
    if s[0] == c { assert q[i + 1] == q[i..][1]; }
  }

  /** Reading the doubled name, its closing quote, and whatever follows. */
  lemma {:induction false} DoubledReads(q: string, i: nat, s: string, c: char, rest: string)
    requires i <= |q| && q[i..] == Doubled(s, c) + [c] + rest
    ensures rest == "" || rest[0] != c ==> QuoteEnd(q, i, c) == (|q| - |rest|, true) && QuotedText(q, i, c) == s
    ensures rest != "" && rest[0] == c ==> QuoteEnd(q, i, c) != (|q| - |rest|, true)
    decreases |s|
  {
    hide QuoteEnd, QuotedText;
    if s == "" {
      assert q[i..] == [c] + rest;
      assert q[i] == q[i..][0] && (i + 1 < |q| ==> q[i + 1] == q[i..][1]);
      ReadStep(q, i, c);
      if rest != "" && rest[0] == c { QuoteEndAfter(q, i + 2, c); }
    } else {
      DoubledStep(q, i, s, c, rest);
      ReadStep(q, i, c);
      DoubledReads(q, if s[0] == c then i + 2 else i + 1, s[1..], c, rest);
    }
  }

  /** A quoted text ends after where its content starts, or is not closed. */
  lemma QuoteEndAfter(q: string, i: nat, c: char)
    requires i <= |q|
    ensures QuoteEnd(q, i, c).0 > i || !QuoteEnd(q, i, c).1
  {
  }

  lemma OpensQuote(d: Dialect, q: string)
    requires q != "" && q[0] == OpenQuote(d)
    ensures KindAt(q, 0) == if d.SqlServer? then Bracketed else Quoted
    ensures var r := QuoteEnd(q, 1, CloseQuote(d)); Cut(q, 0) == Extent(KindAt(q, 0), r.0, r.1)
  {
    hide QuoteEnd;
  }

  /**
   A quoted name is one closed lexeme that reads back as the name, whatever its characters are, exactly when the text
   after it does not start with its own closing quote.
   */
  lemma QuotedNameReadsBack(d: Dialect, identifier: string, rest: string)
    ensures var quoted := QuoteIdent(d, identifier); var x := Cut(quoted + rest, 0);
            x == Extent(if d.SqlServer? then Bracketed else Quoted, |quoted|, true)
            <==> rest == "" || rest[0] != CloseQuote(d)
    ensures rest == "" || rest[0] != CloseQuote(d)
            ==> QuotedText(QuoteIdent(d, identifier) + rest, 1, CloseQuote(d)) == identifier
  {
    hide QuoteEnd, QuotedText, Cut, KindAt;
    var c := CloseQuote(d);
    var q := QuoteIdent(d, identifier) + rest;
    OpensQuote(d, q);
    assert q == [OpenQuote(d)] + (Doubled(identifier, c) + [c] + rest);
    DoubledReads(q, 1, identifier, c, rest);
  }
}
