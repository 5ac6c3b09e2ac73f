/**
 How each kind of lexeme is written, and that it is cut whole at the beginning of a text: comments, string literals,
 quoted and bracketed names, placeholders, words, and single characters.
 */
module SqlForms {
  import opened SqlLexer

  /** A text holds no closing sign of a block comment. */
  predicate NoBlockEnd(s: string) {
    forall i :: 0 <= i < |s| - 1 ==> !(s[i] == '*' && s[i + 1] == '/')
  }

  lemma {:induction false} LineRuns(q: string, i: nat, end: nat)
    requires i <= end <= |q| && (end < |q| ==> q[end] == '\n') && forall k :: i <= k < end ==> q[k] != '\n'
    ensures LineEnd(q, i) == end
    decreases end - i
  {
    if i < end { LineRuns(q, i + 1, end); }
  }

  lemma {:induction false} BlockRuns(q: string, i: nat, end: nat)
    requires i <= end && end + 2 <= |q| && q[end] == '*' && q[end + 1] == '/'
    requires forall k :: i <= k < end ==> !(q[k] == '*' && q[k + 1] == '/')
    ensures BlockEnd(q, i) == (end + 2, true)
    decreases end - i
  {
    if i < end { BlockRuns(q, i + 1, end); }
  }

  lemma {:induction false} BraceRuns(q: string, i: nat, end: nat)
    requires i <= end < |q| && q[end] == '}' && forall k :: i <= k < end ==> q[k] != '}'
    ensures BraceEnd(q, i) == (end + 1, true)
    decreases end - i
  {
    if i < end { BraceRuns(q, i + 1, end); }
  }

  lemma {:induction false} QuoteRuns(q: string, i: nat, end: nat, quote: char)
    requires i <= end < |q| && q[end] == quote && (end + 1 < |q| ==> q[end + 1] != quote)
    requires forall k :: i <= k < end ==> q[k] != quote
    ensures QuoteEnd(q, i, quote) == (end + 1, true)
    decreases end - i
  {
    if i < end { QuoteRuns(q, i + 1, end, quote); }
  }

  lemma {:induction false} WordRun(q: string, i: nat, end: nat)
    requires i <= end <= |q| && (end < |q| ==> !IsIdentPart(q[end])) && forall k :: i <= k < end ==> IsIdentPart(q[k])
    ensures WordEnd(q, i) == end
    decreases end - i
  {
    if i < end { WordRun(q, i + 1, end); }
  }

  /** Two dashes comment out the rest of the line; without a line end the comment is open. */
  lemma LineComment(x: string, rest: string)
    requires '\n' !in x && (rest == "" || rest[0] == '\n')
    ensures Cut("--" + x + rest, 0) == Extent(Comment, |x| + 2, rest != "")
  {
    var q := "--" + x + rest;
    assert q[0] == '-' && q[1] == '-' && forall k :: 2 <= k < |x| + 2 ==> q[k] == x[k - 2] && x[k - 2] in x;
    LineRuns(q, 2, |x| + 2);
  }

  /** A slash and a star comment out everything up to the next star and slash. */
  lemma BlockComment(x: string, rest: string)
    requires NoBlockEnd(x + "*")
    ensures Cut("/*" + x + "*/" + rest, 0) == Extent(Comment, |x| + 4, true)
  {
    var q, y := "/*" + x + "*/" + rest, x + "*";
    assert q[0] == '/' && q[1] == '*' && forall k :: 0 <= k < |y| ==> q[k + 2] == y[k];
    forall k | 2 <= k < |x| + 2
      ensures !(q[k] == '*' && q[k + 1] == '/')
    {
      assert q[k] == y[k - 2] && q[k + 1] == y[k - 1];
    }
    BlockRuns(q, 2, |x| + 2);
  }

  /** A text between quotes is a string literal for an apostrophe, else a quoted name; brackets make a bracketed one. */
  lemma QuotedForm(open: char, x: string, close: char, rest: string)
    requires (open in "'\"`" && close == open) || (open == '[' && close == ']')
    requires close !in x && (rest == "" || rest[0] != close)
    ensures Cut([open] + x + [close] + rest, 0)
         == Extent(if open == '\'' then Literal else if open == '[' then Bracketed else Quoted, |x| + 2, true)
  {
    var q := [open] + x + [close] + rest;
    assert q[0] == open && forall k :: 1 <= k < |x| + 1 ==> q[k] == x[k - 1] && x[k - 1] in x;
    QuoteRuns(q, 1, |x| + 1, close);
  }

  /** A placeholder goes from its sign and brace to the next closing brace. */
  lemma PlaceholderForm(sign: char, x: string, rest: string)
    requires (sign == '#' || sign == '$') && '}' !in x
    ensures Cut([sign] + "{" + x + "}" + rest, 0) == Extent(Placeholder, |x| + 3, true)
  {
    var q := [sign] + "{" + x + "}" + rest;
    assert q[0] == sign && q[1] == '{' && forall k :: 2 <= k < |x| + 2 ==> q[k] == x[k - 2] && x[k - 2] in x;
    BraceRuns(q, 2, |x| + 2);
  }

  /** What a name is made of: letters, underscores, and digits except at the beginning. */
  predicate NameCharacter(c: char, first: bool) {
    c in "abcdefghijklmnopqrstuvwxyz" || c in "ABCDEFGHIJKLMNOPQRSTUVWXYZ" || c == '_' || (!first && c in "0123456789")
  }

  lemma NameCharacterIs(c: char)
    ensures NameCharacter(c, true) <==> IsIdentStart(c)
    ensures NameCharacter(c, false) <==> IsIdentPart(c)
  {
    LetterIs("abcdefghijklmnopqrstuvwxyz", 'a', c);
    LetterIs("ABCDEFGHIJKLMNOPQRSTUVWXYZ", 'A', c);
    LetterIs("0123456789", '0', c);
  }

  lemma LetterIs(letters: string, first: char, c: char)
    requires |letters| < 30 && first < '\U{0080}'
    requires forall i :: 0 <= i < |letters| ==> letters[i] as int == first as int + i
    ensures c in letters <==> first as int <= c as int < first as int + |letters|
  {
    if first as int <= c as int < first as int + |letters| { assert letters[c as int - first as int] == c; }
  }

  /** A name is a word, up to the first character that cannot be in one. */
  lemma WordForm(x: string, rest: string)
    requires x != "" && NameCharacter(x[0], true) && forall c <- x :: NameCharacter(c, false)
    requires rest == "" || !NameCharacter(rest[0], false)
    ensures Cut(x + rest, 0) == Extent(Word, |x|, true)
  {
    hide NameCharacter;
    var q := x + rest;
    NameCharacterIs(x[0]);
    forall k | 0 <= k < |x|
      ensures IsIdentPart(q[k])
    {
      assert q[k] == x[k] && x[k] in x;
      NameCharacterIs(x[k]);
    }
    if rest != "" { NameCharacterIs(rest[0]); }
    WordRun(q, 1, |x|);
  }

  /** Parentheses, white space and digits are lexemes of one character. */
  lemma SingleForm(c: char, rest: string)
    requires c in "() \t\n\r\U{000C}" || c in "0123456789"
    ensures var kind := if c == '(' then Open else if c == ')' then Close
                        else if c in "0123456789" then Other else Space;
            Cut([c] + rest, 0) == Extent(kind, 1, true)
  {
    NameCharacterIs(c);
  }
}
