/** Which columns an INSERT has: the names between the commas of its column list, by the characters that count. */
module SqlColumnList {
  import opened SqlLexer
  import opened SqlScan
  import opened SqlPredicate
  import opened SqlRewrite
  import opened SqlList
  import opened SqlNames
  import opened SqlPath
  import opened SqlClauses
  import opened SqlInsert
  import F = SqlForms
  import Text

  /** A column as it may be written: a name, alone, in quotes or brackets, or behind another name and a dot. */
  ghost predicate Written(item: string, name: string) {
    && IsName(name)
    && (|| item == name || item == "\"" + name + "\"" || item == "`" + name + "`" || item == "[" + name + "]"
        || exists table :: IsName(table) && item == table + "." + name)
  }

  /** Lexemes without commas and parentheses. */
  predicate Plain(ls: seq<Lexeme>) {
    forall l <- ls :: l.closed && !IsComma(l) && !l.kind.Open? && !l.kind.Close?
  }

  lemma NameChars(name: string)
    requires IsName(name)
    ensures forall c <- name :: c != '"' && c != '`' && c != ']' && c != '.' && !Text.IsSpace(c)
  {
  }

  lemma NameTrimmed(name: string)
    requires IsName(name)
    ensures Text.TrimSpace(name) == name && AfterLastDot(name) == 0
  {
    hide AfterLastDot, Text.TrimSpace;
    NameChars(name);
    assert name[0] in name && name[|name| - 1] in name;
    NoDots(name);
    Text.TrimTight(name);
  }

  lemma OneCut(q: string, kind: Kind)
    requires q != "" && Cut(q, 0) == Extent(kind, |q|, true)
    ensures Lex(q, 0) == [Lexeme(kind, q, true)]
  {
    assert Lex(q, |q|) == [];
    assert q[0..|q|] == q;
    assert Lex(q, 0) == [Lexeme(kind, q[0..|q|], true)] + Lex(q, |q|);
  }

  lemma QuotedPlain(open: char, name: string, close: char)
    requires IsName(name) && ((open in "\"`" && close == open) || (open == '[' && close == ']'))
    ensures Plain(Lex([open] + name + [close], 0))
  {
    hide Cut, Lex;
    NameChars(name);
    var q := [open] + name + [close];
    assert q + "" == q;
    F.QuotedForm(open, name, close, "");
    OneCut(q, if open == '[' then Bracketed else Quoted);
  }

  lemma DottedPlain(table: string, name: string)
    requires IsName(table) && IsName(name)
    ensures Plain(Lex(table + "." + name, 0))
  {
    hide Cut, Lex;
    var q, rest := table + "." + name, "." + name;
    assert q == table + rest && q[0] == table[0];
    WordPrefix(table, rest);
    LexFrom(q, 0);
    LexShift(q, |table|, 0);
    assert q[|table|..] == rest && q[0..|table|] == table;
    SqlPath.DotLex(name);
    WordAlone(name);
  }

  lemma WordPrefix(word: string, rest: string)
    requires IsName(word) && rest != "" && rest[0] == '.'
    ensures Cut(word + rest, 0) == Extent(Word, |word|, true)
  {
    F.WordRun(word + rest, 1, |word|) by {
      forall k | 1 <= k < |word|
        ensures IsIdentPart((word + rest)[k])
      {
        assert (word + rest)[k] == word[k] && word[k] in word;
      }
    }
    CutIdentPart(word + rest, 0);
  }

  lemma WrittenPlain(item: string, name: string)
    requires Written(item, name)
    ensures Plain(Lex(item, 0)) && item != ""
  {
    hide Lex, Cut;
    if item == name {
      WordAlone(name);
    } else if item == "\"" + name + "\"" {
      QuotedPlain('"', name, '"');
    } else if item == "`" + name + "`" {
      QuotedPlain('`', name, '`');
    } else if item == "[" + name + "]" {
      QuotedPlain('[', name, ']');
    } else {
      var table :| IsName(table) && item == table + "." + name;
      DottedPlain(table, name);
    }
  }

  // ---- the items of a list ----

  lemma {:induction false} PlainItems(ls: seq<Lexeme>)
    requires Plain(ls)
    ensures Items(ls, 0) == [ls] && DepthOf(ls, 0) == 0
  {
    if ls != [] {
      PlainItems(ls[1..]);
      assert ls[0] in ls && ls == [ls[0]] + ls[1..];
      ItemsFirst(ls[0], ls[1..], 0);
    }
  }

  lemma {:induction false} TextLex(q: string, i: nat)
    requires i <= |q|
    ensures TextOf(Lex(q, i)) == q[i..]
    decreases |q| - i
  {
    hide Cut;
    if i < |q| {
      LexFrom(q, i);
      TextLex(q, Cut(q, i).end);
      assert Lex(q, i)[1..] == Lex(q, Cut(q, i).end);
      assert q[i..] == q[i..Cut(q, i).end] + q[Cut(q, i).end..];
    }
  }

  function Spaced(items: seq<string>): (r: seq<string>)
    ensures |r| == |items| && forall i :: 0 <= i < |items| ==> r[i] == " " + items[i]
  {
    if items == [] then [] else [" " + items[0]] + Spaced(items[1..])
  }

  ghost predicate AllWritten(items: seq<string>, names: seq<string>) {
    |items| == |names| && forall i :: 0 <= i < |items| ==> Written(items[i], names[i])
  }

  lemma SpaceItems(ls: seq<Lexeme>)
    ensures var texts := Texts(Items(ls, 0));
            Texts(Items([Lexeme(Space, " ", true)] + ls, 0)) == [" " + texts[0]] + texts[1..]
  {
    var all := [Lexeme(Space, " ", true)] + ls;
    assert all[1..] == ls;
    TextsStep(all, 0);
  }

  /** A list of columns is split at its commas. */
  lemma {:induction false} ListTexts(items: seq<string>, names: seq<string>)
    requires items != [] && AllWritten(items, names)
    ensures Texts(Items(Lex(Text.Join(items, ", "), 0), 0)) == [items[0]] + Spaced(items[1..])
    decreases |items|
  {
    hide Lex, Cut, Items, Texts, Written, Plain;
    var first := items[0];
    WrittenPlain(first, names[0]);
    PlainItems(Lex(first, 0));
    TextLex(first, 0);
    assert first[0..] == first;
    OneText(Lex(first, 0));
    if |items| > 1 {
      var more := items[1..];
      var rest := Text.Join(more, ", ");
      ListTexts(more, names[1..]);
      assert Text.Join(items, ", ") == first + ", " + rest == first + (", " + rest);
      PlainClosed(first);
      LexAppend(first, ", " + rest);
      CommaAppend(rest);
      var gap := [Lexeme(Space, " ", true)];
      assert Lex(first, 0) + ([CommaSign, gap[0]] + Lex(rest, 0)) == Lex(first, 0) + [CommaSign] + (gap + Lex(rest, 0));
      ItemsConcat(Lex(first, 0), gap + Lex(rest, 0), 0);
      TextsMore(Items(Lex(first, 0), 0), Items(gap + Lex(rest, 0), 0));
      SpaceItems(Lex(rest, 0));
      assert Spaced(more) == [" " + more[0]] + Spaced(more[1..]);
    }
  }

  lemma PlainClosed(item: string)
    requires Plain(Lex(item, 0))
    ensures AllClosed(Lex(item, 0))
  {
    hide Lex;
  }

  lemma OneText(ls: seq<Lexeme>)
    ensures Texts([ls]) == [TextOf(ls)]
  {
    assert [ls][1..] == [];
  }

  lemma {:induction false} TextsMore(a: seq<seq<Lexeme>>, b: seq<seq<Lexeme>>)
    ensures Texts(a + b) == Texts(a) + Texts(b)
  {
    if a == [] {
      assert a + b == b;
    } else {
      assert (a + b)[1..] == a[1..] + b;
      TextsMore(a[1..], b);
    }
  }

  // ---- the key of an item ----

  lemma LastPartName(front: string, name: string)
    requires IsName(name) && (front == "" || (front[|front| - 1] == '.' && IsIdentStart(front[0])))
    ensures LastIdentifierPart(front + name) == name
  {
    hide AfterLastDot, Text.TrimSpace;
    NameChars(name);
    NameTrimmed(name);
    var q := front + name;
    assert name[|name| - 1] in name && q[|q| - 1] == name[|name| - 1];
    Text.TrimTight(q) by { if front == "" { assert q == name && name[0] in name; } }
    if front == "" {
      assert q == name && name[0..] == name;
    } else {
      var table := front[..|front| - 1];
      assert q == table + "." + name;
      AfterDot(table, name);
      assert q[|front|..] == name;
    }
  }

  /** An item has the key of the name it is written with. */
  lemma WrittenKey(item: string, name: string)
    requires Written(item, name)
    ensures ItemKey(item) == Counted(name) && ItemKey(" " + item) == Counted(name)
  {
    hide Text.TrimSpace, UnquoteSqlIdentifier, LastIdentifierPart, NormalizeColumnKey, Counted, Written;
    WrittenTrimmed(item, name);
    WrittenPart(item, name);
    WrittenName(item, name);
    NameTrimmed(name);
    ColumnKeyIs(name);
  }

  lemma WrittenName(item: string, name: string)
    requires Written(item, name)
    ensures IsName(name)
  {
  }

  lemma WrittenTrimmed(item: string, name: string)
    requires Written(item, name)
    ensures Text.TrimSpace(" " + item) == item && Text.TrimSpace(item) == item
  {
    NameChars(name);
    assert name[0] in name && name[|name| - 1] in name;
    assert item[|item| - 1] in ['"', '`', ']', name[|name| - 1]];
    TrimLed(item);
  }

  lemma BetweenQuotes(open: char, name: string, close: char)
    requires IsName(name) && ((open in "\"`" && close == open) || (open == '[' && close == ']'))
    ensures UnquoteSqlIdentifier([open] + name + [close]) == name
  {
    hide Text.TrimSpace, Undoubled;
    var q := [open] + name + [close];
    NameChars(name);
    UndoubledPlain(name, close);
    TrimLed(q);
    assert q[1..|q| - 1] == name;
  }

  lemma NoQuotes(item: string)
    requires item != "" && IsIdentStart(item[0]) && !Text.IsSpace(item[|item| - 1])
    ensures UnquoteSqlIdentifier(item) == item
  {
    hide Text.TrimSpace;
    TrimLed(item);
  }

  lemma WrittenPart(item: string, name: string)
    requires Written(item, name)
    ensures LastIdentifierPart(UnquoteSqlIdentifier(item)) == name
  {
    hide UnquoteSqlIdentifier, LastIdentifierPart;
    NameChars(name);
    assert name[|name| - 1] in name && "" + name == name;
    LastPartName("", name);
    if item == name {
      NoQuotes(item);
    } else if item == "\"" + name + "\"" {
      BetweenQuotes('"', name, '"');
    } else if item == "`" + name + "`" {
      BetweenQuotes('`', name, '`');
    } else if item == "[" + name + "]" {
      BetweenQuotes('[', name, ']');
    } else {
      var table :| IsName(table) && item == table + "." + name;
      LastPartName(table + ".", name);
      assert item[0] == table[0] && item[|item| - 1] == name[|name| - 1];
      NoQuotes(item);
    }
  }

  lemma UndoubledPlain(name: string, c: char)
    requires c !in name
    ensures Undoubled(name, c) == name
  {
    SqlPath.NothingDoubled(name, c);
    UndoubledDoubled(name, c);
  }

  // ---- the columns of the list ----

  /** The keys of the items of a list are those of its names. */
  lemma ListKeys(items: seq<string>, names: seq<string>)
    requires items != [] && AllWritten(items, names)
    ensures var texts := Texts(Items(Lex(Text.Join(items, ", "), 0), 0));
            |texts| == |names| && forall i :: 0 <= i < |names| ==> ItemKey(texts[i]) == Counted(names[i])
  {
    hide Lex, Items, Texts, Counted, ItemKey, Written, Text.Join;
    ListTexts(items, names);
    var texts := [items[0]] + Spaced(items[1..]);
    forall i | 0 <= i < |items|
      ensures ItemKey(texts[i]) == Counted(names[i])
    {
      WrittenKey(items[i], names[i]);
      assert i > 0 ==> texts[i] == " " + items[i];
    }
  }

  lemma ColumnKey(column: string)
    requires IsName(column)
    ensures NormalizeColumnKey(LastIdentifierPart(column)) == Counted(column)
  {
    hide NormalizeColumnKey, LastIdentifierPart, Counted;
    assert "" + column == column;
    LastPartName("", column);
    NameTrimmed(column);
    ColumnKeyIs(column);
  }

  /** A column is in the list exactly when one of the names there is the same, by the characters that count. */
  lemma ListContainsIs(items: seq<string>, names: seq<string>, column: string)
    requires items != [] && AllWritten(items, names) && IsName(column)
    ensures ListContains(Text.Join(items, ", "), column)
            <==> Counted(column) != "" && exists i :: 0 <= i < |names| && Counted(names[i]) == Counted(column)
  {
    hide Lex, Items, Texts, Counted, NormalizeColumnKey, LastIdentifierPart, ItemKey, AllWritten, Text.Join, IsName;
    ColumnKey(column);
    ListKeys(items, names);
    var texts := Texts(Items(Lex(Text.Join(items, ", "), 0), 0));
    assert forall i :: 0 <= i < |names| ==> texts[i] in texts;
  }
}
