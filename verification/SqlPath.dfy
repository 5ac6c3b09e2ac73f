/** `quoteIdentifierPath` of wrapper.go: the quoted names it writes, and the lexemes they are read as. */
module SqlPath {
  import opened Prelude
  import opened SqlLexer
  import opened SqlScan
  import opened SqlList
  import opened SqlNames
  import opened SqlQuote
  import opened SqlColumns
  import SqlForms
  import Text

  // ---- quoting ----

  function DotIndex(s: string): (i: nat)
    ensures i <= |s| && (i < |s| ==> s[i] == '.') && forall k :: 0 <= k < i ==> s[k] != '.'
  {
    if s == "" || s[0] == '.' then 0 else 1 + DotIndex(s[1..])
  }

  /** `strings.Split(s, ".")`. */
  function PathParts(s: string): (parts: seq<string>)
    ensures parts != []
    decreases |s|
  {
    var i := DotIndex(s);
    if i == |s| then [s] else [s[..i]] + PathParts(s[i + 1..])
  }

  predicate ValidIdentifierPart(s: string) {
    s != "" && IsIdentStart(s[0]) && forall c <- s :: IsIdentPart(c)
  }

  function TrimmedParts(parts: seq<string>): (names: seq<string>)
    ensures |names| == |parts|
  {
    if parts == [] then [] else [Text.TrimSpace(parts[0])] + TrimmedParts(parts[1..])
  }

  function Quotes(d: Dialect, names: seq<string>): (quoted: seq<string>)
    ensures |quoted| == |names|
  {
    if names == [] then [] else [QuoteIdent(d, names[0])] + Quotes(d, names[1..])
  }

  /** The parts of a dotted name, when it has any and all of them can be quoted. */
  function NamesOf(identifier: string): (names: Option<seq<string>>)
    ensures names.Some? ==> names.value != [] && forall n <- names.value :: ValidIdentifierPart(n)
  {
    var s := Text.TrimSpace(identifier);
    var names := TrimmedParts(PathParts(s));
    if s == "" || exists n <- names :: !ValidIdentifierPart(n) then None else Some(names)
  }

  function PathText(d: Dialect, names: seq<string>): string {
    Text.Join(Quotes(d, names), ".")
  }

  lemma {:induction false} QuotesMore(d: Dialect, names: seq<string>, name: string)
    ensures Quotes(d, names + [name]) == Quotes(d, names) + [QuoteIdent(d, name)]
  {
    hide QuoteIdent;
    if names == [] {
      assert names + [name] == [name] && [name][1..] == [];
    } else {
      assert (names + [name])[1..] == names[1..] + [name];
      QuotesMore(d, names[1..], name);
    }
  }

  lemma {:induction false} TrimmedAt(parts: seq<string>, k: nat)
    requires k < |parts|
    ensures TrimmedParts(parts)[k] == Text.TrimSpace(parts[k])
  {
    hide Text.TrimSpace;
    if k > 0 { TrimmedAt(parts[1..], k - 1); }
  }

  method QuoteIdentifierPath(d: Dialect, identifier: string) returns (r: Option<string>)
    ensures r == match NamesOf(identifier) case None => None case Some(names) => Some(PathText(d, names))
  {
    hide Text.TrimSpace, QuoteIdent, ValidIdentifierPart, PathParts;
    var s := Text.TrimSpace(identifier);
    if s == "" {
      return None;
    }
    var parts := PathParts(s);
    ghost var names := TrimmedParts(parts);
    var quoted: seq<string> := [];
    for i := 0 to |parts|
      invariant quoted == Quotes(d, names[..i]) && forall n <- names[..i] :: ValidIdentifierPart(n)
    {
      var part := Text.TrimSpace(parts[i]);
      TrimmedAt(parts, i);
      if !ValidIdentifierPart(part) {
        assert names[i] in names;
        return None;
      }
      QuotesMore(d, names[..i], part);
      assert names[..i + 1] == names[..i] + [part];
      quoted := quoted + [QuoteIdent(d, part)];
    }
    assert names[..|parts|] == names;
    return Some(Text.Join(quoted, "."));
  }

  /** A plain name in the quotes of each dialect. */
  lemma PlainQuoted(d: Dialect, name: string)
    requires ValidIdentifierPart(name)
    ensures NamesOf(name) == Some([name])
    ensures PathText(d, [name])
         == match d
            case Question => "`" + name + "`"
            case MySql => "`" + name + "`"
            case MariaDb => "`" + name + "`"
            case Postgres => "\"" + name + "\""
            case Sqlite => "\"" + name + "\""
            case Oracle => "\"" + name + "\""
            case SqlServer => "[" + name + "]"
  {
    hide QuoteIdent, Doubled, ValidIdentifierPart, NamesOf, PathText;
    OnePart(name);
    OneQuoted(d, name);
    NoQuoteInside(d, name);
    NothingDoubled(name, CloseQuote(d));
    QuotedIs(d, name);
  }

  lemma OneQuoted(d: Dialect, name: string)
    ensures PathText(d, [name]) == QuoteIdent(d, name)
  {
    hide QuoteIdent;
    assert [name][1..] == [] && Quotes(d, []) == [];
    assert Quotes(d, [name]) == [QuoteIdent(d, name)];
  }

  lemma QuotedIs(d: Dialect, name: string)
    requires Doubled(name, CloseQuote(d)) == name
    ensures QuoteIdent(d, name) == [OpenQuote(d)] + name + [CloseQuote(d)]
  {
  }

  lemma NoQuoteInside(d: Dialect, name: string)
    requires ValidIdentifierPart(name)
    ensures CloseQuote(d) !in name
  {
  }

  lemma OnePart(name: string)
    requires ValidIdentifierPart(name)
    ensures NamesOf(name) == Some([name])
  {
    assert name[0] in name && name[|name| - 1] in name;
    Text.TrimTight(name);
    assert forall k :: 0 <= k < |name| ==> name[k] in name;
    assert DotIndex(name) == |name|;
    hide Text.TrimSpace, ValidIdentifierPart;
    assert PathParts(name) == [name] && [name][1..] == [];
    assert TrimmedParts([]) == [] && TrimmedParts([name]) == [name];
  }

  lemma {:induction false} NothingDoubled(s: string, c: char)
    requires c !in s
    ensures Doubled(s, c) == s
  {
    if s != "" {
      assert s == [s[0]] + s[1..];
      NothingDoubled(s[1..], c);
    }
  }

  // ---- dotted names ----

  /** A name that can be quoted, by the characters it may have. */
  predicate Quotable(s: string) {
    s != "" && SqlForms.NameCharacter(s[0], true) && forall c <- s :: SqlForms.NameCharacter(c, false)
  }

  lemma QuotableIs(s: string)
    ensures Quotable(s) <==> ValidIdentifierPart(s)
  {
    hide SqlForms.NameCharacter, IsIdentStart, IsIdentPart;
    if s != "" { SqlForms.NameCharacterIs(s[0]); }
    forall c | c in s
      ensures SqlForms.NameCharacter(c, false) <==> IsIdentPart(c)
    {
      SqlForms.NameCharacterIs(c);
    }
  }

  /** Parts without dots and without white space around them. */
  predicate Parts(parts: seq<string>) {
    forall p <- parts :: '.' !in p && (p == "" || (!Text.IsSpace(p[0]) && !Text.IsSpace(p[|p| - 1])))
  }

  lemma PartTrimmed(p: string)
    requires p == "" || (!Text.IsSpace(p[0]) && !Text.IsSpace(p[|p| - 1]))
    ensures Text.TrimSpace(p) == p
  {
    if p != "" { Text.TrimTight(p); }
  }

  lemma {:induction false} DotIndexIs(s: string, n: nat)
    requires n <= |s| && (n < |s| ==> s[n] == '.') && forall k :: 0 <= k < n ==> s[k] != '.'
    ensures DotIndex(s) == n
  {
    if n > 0 { DotIndexIs(s[1..], n - 1); }
  }

  lemma {:induction false} PartsBack(parts: seq<string>)
    requires parts != [] && Parts(parts)
    ensures PathParts(Text.Join(parts, ".")) == parts
  {
    hide DotIndex, PathParts;
    var first, s := parts[0], Text.Join(parts, ".");
    assert first in parts && parts == [first] + parts[1..];
    PartsStep(s);
    if |parts| == 1 {
      DotIndexIs(s, |s|);
    } else {
      assert Parts(parts[1..]);
      PartsBack(parts[1..]);
      DotIndexIs(s, |first|);
      assert s[..|first|] == first && s[|first| + 1..] == Text.Join(parts[1..], ".");
    }
  }

  lemma {:induction false} TrimmedBack(parts: seq<string>)
    requires Parts(parts)
    ensures TrimmedParts(parts) == parts
  {
    hide Text.TrimSpace;
    if parts != [] {
      assert parts[0] in parts && parts == [parts[0]] + parts[1..];
      PartTrimmed(parts[0]);
      TrimmedBack(parts[1..]);
    }
  }

  lemma {:induction false} JoinEnd(parts: seq<string>)
    requires parts != [] && Parts(parts) && Text.Join(parts, ".") != ""
    ensures var s := Text.Join(parts, "."); !Text.IsSpace(s[|s| - 1])
  {
    hide Text.TrimSpace;
    assert parts[0] in parts;
    if |parts| > 1 {
      assert Parts(parts[1..]);
      if Text.Join(parts[1..], ".") != "" { JoinEnd(parts[1..]); }
    }
  }

  lemma JoinTrimmed(parts: seq<string>)
    requires parts != [] && Parts(parts) && Text.Join(parts, ".") != ""
    ensures Text.TrimSpace(Text.Join(parts, ".")) == Text.Join(parts, ".")
  {
    hide Text.TrimSpace;
    JoinEnd(parts);
    assert parts[0] in parts;
    Text.TrimTight(Text.Join(parts, "."));
  }

  lemma NothingTrimmed()
    ensures Text.TrimSpace("") == ""
  {
  }

  /** A dotted name can be quoted exactly when all its parts can, and is quoted part by part. */
  lemma PathNames(parts: seq<string>)
    requires parts != [] && Parts(parts)
    ensures NamesOf(Text.Join(parts, ".")) == if forall p <- parts :: Quotable(p) then Some(parts) else None
  {
    hide Text.TrimSpace, Text.Join, PathParts, TrimmedParts, Quotable, ValidIdentifierPart, Parts;
    forall p | p in parts
      ensures Quotable(p) <==> ValidIdentifierPart(p)
    {
      QuotableIs(p);
    }
    PartsBack(parts);
    TrimmedBack(parts);
    NothingTrimmed();
    if Text.Join(parts, ".") == "" {
      EmptyPart(parts);
    } else {
      JoinTrimmed(parts);
    }
  }

  lemma EmptyPart(parts: seq<string>)
    requires parts != [] && Text.Join(parts, ".") == ""
    ensures parts[0] == "" && parts[0] in parts && !Quotable("")
  {
  }

  // ---- the last part ----

  lemma {:induction false} AfterDot(a: string, b: string)
    ensures AfterLastDot(a + "." + b) == |a| + 1 + AfterLastDot(b)
    decreases |b|
  {
    var s := a + "." + b;
    if b == "" {
      assert s == a + ".";
      assert s[|s| - 1] == '.';
    } else if b[|b| - 1] != '.' {
      assert s[..|s| - 1] == a + "." + b[..|b| - 1];
      AfterDot(a, b[..|b| - 1]);
    }
  }

  lemma {:induction false} NoDotAtAll(s: string)
    requires forall k :: 0 <= k < |s| ==> s[k] != '.'
    ensures AfterLastDot(s) == 0
    decreases |s|
  {
    if s != "" { NoDotAtAll(s[..|s| - 1]); }
  }

  lemma PartsStep(s: string)
    ensures var i := DotIndex(s); PathParts(s) == if i == |s| then [s] else [s[..i]] + PathParts(s[i + 1..])
  {
    hide DotIndex;
  }

  lemma {:induction false} LastPart(s: string)
    ensures PathParts(s)[|PathParts(s)| - 1] == s[AfterLastDot(s)..]
    decreases |s|
  {
    hide *;
    PartsStep(s);
    var i := DotIndex(s);
    if i == |s| {
      NoDotAtAll(s);
      assert s[0..] == s;
    } else {
      var a, b := s[..i], s[i + 1..];
      LastPart(b);
      assert s == a + "." + b;
      AfterDot(a, b);
      AfterPart(a, b, AfterLastDot(b));
    }
  }

  lemma AfterPart(a: string, b: string, k: nat)
    requires k <= |b|
    ensures (a + "." + b)[|a| + 1 + k..] == b[k..]
  {
  }

  /** The column is looked for by the key of the last part of its name. */
  lemma LastName(identifier: string)
    requires NamesOf(identifier).Some?
    ensures var names := NamesOf(identifier).value; KeyOf(identifier) == NormalizeColumnKey(names[|names| - 1])
  {
    hide Text.TrimSpace, NormalizeColumnKey, PathParts, ValidIdentifierPart, AfterLastDot;
    var s := Text.TrimSpace(identifier);
    LastPart(s);
    TrimmedAt(PathParts(s), |PathParts(s)| - 1);
  }

  // ---- the lexemes of a quoted name ----

  const DotSign := Lexeme(Other, ".", true)

  function QuoteLexeme(d: Dialect, name: string): Lexeme {
    Lexeme(if d.SqlServer? then Bracketed else Quoted, QuoteIdent(d, name), true)
  }

  function PathLexemes(d: Dialect, names: seq<string>): (ls: seq<Lexeme>)
    requires names != []
    ensures ls != []
  {
    [QuoteLexeme(d, names[0])] + (if |names| == 1 then [] else [DotSign] + PathLexemes(d, names[1..]))
  }

  lemma DotLex(rest: string)
    ensures Lex("." + rest, 0) == [DotSign] + Lex(rest, 0)
  {
    var q := "." + rest;
    assert Cut(q, 0) == Extent(Other, 1, true);
    LexFrom(q, 0);
    LexShift(q, 1, 0);
    assert q[1..] == rest && q[0..1] == ".";
  }

  lemma QuoteLex(d: Dialect, name: string, rest: string)
    requires rest == "" || rest[0] != CloseQuote(d)
    ensures Lex(QuoteIdent(d, name) + rest, 0) == [QuoteLexeme(d, name)] + Lex(rest, 0)
  {
    hide Cut, Lex, QuoteIdent, QuotedText;
    var quoted := QuoteIdent(d, name);
    var q := quoted + rest;
    assert |quoted| >= 2 by { QuotedLong(d, name); }
    QuotedNameReadsBack(d, name, rest);
    LexFrom(q, 0);
    LexShift(q, |quoted|, 0);
    assert q[|quoted|..] == rest && q[0..|quoted|] == quoted;
  }

  lemma QuotedLong(d: Dialect, name: string)
    ensures |QuoteIdent(d, name)| >= 2
  {
  }

  lemma SplitJoin(d: Dialect, names: seq<string>, rest: string)
    requires names != []
    ensures PathText(d, names) + rest
         == QuoteIdent(d, names[0]) + (if |names| == 1 then rest else "." + (PathText(d, names[1..]) + rest))
  {
    hide QuoteIdent;
    var first, more := QuoteIdent(d, names[0]), Quotes(d, names[1..]);
    assert Quotes(d, names) == [first] + more;
    JoinFirst(first, more);
    if |names| > 1 { Regroup(first, Text.Join(more, "."), rest); }
  }

  lemma JoinFirst(first: string, more: seq<string>)
    ensures Text.Join([first] + more, ".") == if more == [] then first else first + "." + Text.Join(more, ".")
  {
    assert ([first] + more)[1..] == more;
  }

  lemma Regroup(a: string, b: string, c: string)
    ensures a + "." + b + c == a + ("." + (b + c))
  {
  }

  /** A quoted name before white space or the end is read as its parts and dots. */
  lemma {:induction false} PathLex(d: Dialect, names: seq<string>, rest: string)
    requires names != [] && (rest == "" || rest[0] == ' ')
    ensures Lex(PathText(d, names) + rest, 0) == PathLexemes(d, names) + Lex(rest, 0)
    decreases |names|
  {
    hide Lex, Cut, QuoteIdent, PathText, QuoteLexeme;
    SplitJoin(d, names, rest);
    if |names| == 1 {
      QuoteLex(d, names[0], rest);
    } else {
      var more := PathText(d, names[1..]) + rest;
      PathLex(d, names[1..], rest);
      DotLex(more);
      QuoteLex(d, names[0], "." + more);
      assert [QuoteLexeme(d, names[0])] + ([DotSign] + (PathLexemes(d, names[1..]) + Lex(rest, 0)))
          == PathLexemes(d, names) + Lex(rest, 0);
    }
  }

  /** Lexemes without words, parentheses, commas or white space. */
  predicate Wordless(ts: seq<Lexeme>) {
    forall t <- ts :: t.closed && !IsBlank(t) && !t.kind.Word? && !t.kind.Open? && !t.kind.Close? && !IsComma(t)
  }

  lemma {:induction false} PathWordless(d: Dialect, names: seq<string>)
    requires names != []
    ensures Wordless(PathLexemes(d, names))
    decreases |names|
  {
    if |names| > 1 { PathWordless(d, names[1..]); }
  }

  /** A quoted part reads back as its name. */
  lemma QuoteName(d: Dialect, name: string)
    ensures NameOf(QuoteLexeme(d, name)) == name && IsSegment(QuoteLexeme(d, name)) && !IsDot(QuoteLexeme(d, name))
  {
    hide QuotedText, Doubled;
    var q := QuoteIdent(d, name);
    QuotedNameReadsBack(d, name, "");
    assert q + "" == q;
  }

  lemma {:induction false} PathCounted(d: Dialect, names: seq<string>, rest: seq<Lexeme>)
    requires names != [] && NoDotNext(rest)
    ensures var ls := PathLexemes(d, names);
            && IsSegment(ls[0]) && PathCount(ls + rest) == |ls| && NameOf(ls[|ls| - 1]) == names[|names| - 1]
    decreases |names|
  {
    hide QuoteLexeme, NameOf, IsSegment, MoreCount;
    var ls := PathLexemes(d, names);
    QuoteName(d, names[0]);
    if |names| == 1 {
      assert (ls + rest)[1..] == rest;
      NoMoreNames(rest);
    } else {
      var inner := PathLexemes(d, names[1..]);
      PathCounted(d, names[1..], rest);
      assert (ls + rest)[1..] == [DotSign] + (inner + rest);
      DottedMore(inner + rest);
      assert ls[|ls| - 1] == inner[|inner| - 1];
    }
  }

  lemma NoMoreNames(rest: seq<Lexeme>)
    requires NoDotNext(rest)
    ensures MoreCount(rest) == 0
  {
  }

  lemma DottedMore(ls: seq<Lexeme>)
    requires ls != [] && IsSegment(ls[0])
    ensures MoreCount([DotSign] + ls) == 2 + MoreCount(ls[1..])
  {
    assert ([DotSign] + ls)[1] == ls[0] && ([DotSign] + ls)[2..] == ls[1..];
  }

  /** A quoted name is found under the key of its last part. */
  lemma PathFound(d: Dialect, names: seq<string>, rest: seq<Lexeme>)
    requires names != [] && NoDotNext(rest)
    ensures Finds(PathLexemes(d, names) + rest, NormalizeColumnKey(names[|names| - 1]))
  {
    hide NormalizeColumnKey, NameOf, IsSegment, MoreCount, CloseIndex;
    var ls := PathLexemes(d, names);
    PathCounted(d, names, rest);
    assert (ls + rest)[0] == ls[0] && (ls + rest)[|ls| - 1] == ls[|ls| - 1];
    OpensIs(ls + rest);
  }
}
