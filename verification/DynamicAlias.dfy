/**
 The renaming of loop variables in the text of a fragment, dynamic_alias.go, down to its characters. Which paths after a
 root name are valid is a parameter.
 */
module DynamicAlias {
  import opened Dynamic
  import opened Numbers
  import opened Prelude
  import Text

  type ValidTail = string -> bool

  predicate IsStart(c: char) {
    c == '_' || 'A' <= c <= 'Z' || 'a' <= c <= 'z'
  }

  predicate IsPart(c: char) {
    IsStart(c) || '0' <= c <= '9'
  }

  predicate Identifier(s: string) {
    s != "" && IsStart(s[0]) && forall i :: 0 <= i < |s| ==> IsPart(s[i])
  }

  /** The index after the letters, digits and underscores from an index on. */
  function PartsEnd(s: string, i: nat): (j: nat)
    requires i <= |s|
    ensures i <= j <= |s| && (j < |s| ==> !IsPart(s[j])) && forall k :: i <= k < j ==> IsPart(s[k])
    decreases |s| - i
  {
    if i < |s| && IsPart(s[i]) then PartsEnd(s, i + 1) else i
  }

  /** The root of a path and what follows it, when it has a root and a valid rest. */
  function SplitName(name: string, valid: ValidTail): (r: Option<(string, Tail)>)
    ensures r.Some? ==> Identifier(r.value.0) && name == r.value.0 + r.value.1
  {
    if name == "" || !IsStart(name[0]) then None
    else
      var n := PartsEnd(name, 1);
      if n == |name| then Some((name, ""))
      else if (name[n] == '.' || name[n] == '[') && valid(name[n..]) then Some((name[..n], name[n..]))
      else None
  }

  /** The path with the alias of its root. */
  function RewriteName(name: string, aliases: map<string, string>, valid: ValidTail): Option<string> {
    match SplitName(Text.TrimSpace(name), valid)
    case None => None
    case Some((root, tail)) => if root in aliases then Some(aliases[root] + tail) else None
  }

  method RewriteDynamicParameterName(raw: string, aliases: map<string, string>,
                                     valid: ValidTail) returns (r: Option<string>)
    ensures r == RewriteName(raw, aliases, valid)
  {
    var name := Text.TrimSpace(raw);
    if name == "" || !IsStart(name[0]) {
      return None;
    }
    var next := 1;
    while next < |name| && IsPart(name[next])
      invariant 1 <= next <= |name| && PartsEnd(name, 1) == PartsEnd(name, next)
    {
      next := next + 1;
    }
    var root := name[..next];
    assert next == |name| ==> root == name;
    if root !in aliases {
      return None;
    }
    if next == |name| {
      assert aliases[root] + "" == aliases[root];
      return Some(aliases[root]);
    }
    if name[next] != '.' && name[next] != '[' {
      return None;
    }
    if !valid(name[next..]) {
      return None;
    }
    return Some(aliases[root] + name[next..]);
  }

  // ---- placeholders in a text ----

  function CloseAt(s: string): (i: nat)
    ensures i <= |s| && (i < |s| ==> s[i] == '}') && forall j :: 0 <= j < i ==> s[j] != '}'
  {
    if s == "" || s[0] == '}' then 0 else 1 + CloseAt(s[1..])
  }

  /** The content of a placeholder that starts a text, unless it is not closed or has a brace of its own. */
  function Content(s: string): (r: Option<string>)
    ensures r.Some? ==> |s| >= |r.value| + 3 && s[..|r.value| + 3] == "#{" + r.value + "}"
    ensures r.Some? ==> '{' !in r.value && '}' !in r.value
  {
    if |s| < 2 || s[0] != '#' || s[1] != '{' then None
    else
      var n := CloseAt(s[2..]);
      if n == |s| - 2 || '{' in s[2..2 + n] then None
      else
        assert s[..n + 3] == "#{" + s[2..2 + n] + "}";
        Some(s[2..2 + n])
  }

  /** Reading a placeholder: its end and its trimmed name. */
  method ReadSqlPlaceholderName(text: string, start: nat) returns (r: Option<(nat, string)>)
    requires start + 1 < |text| && text[start] == '#'
    ensures match Content(text[start..])
            case None => r.None?
            case Some(content) => r == Some((start + |content| + 3, Text.TrimSpace(content)))
  {
    hide Text.TrimSpace;
    if text[start + 1] != '{' {
      return None;
    }
    var relativeEnd := CloseAt(text[start + 2..]);
    assert text[start..][2..] == text[start + 2..];
    if relativeEnd == |text| - start - 2 {
      return None;
    }
    var content := text[start + 2..start + 2 + relativeEnd];
    assert text[start..][2..2 + relativeEnd] == content;
    if '{' in content {
      return None;
    }
    return Some((start + 2 + relativeEnd + 1, Text.TrimSpace(content)));
  }

  /** A text with its placeholders renamed, one character or placeholder after another. */
  function Rewrite(text: string, aliases: map<string, string>, valid: ValidTail): string
    decreases |text|
  {
    if text == "" then ""
    else
      match Content(text)
      case None => [text[0]] + Rewrite(text[1..], aliases, valid)
      case Some(content) =>
        Piece(content, aliases, valid) + Rewrite(text[|content| + 3..], aliases, valid)
  }

  function Piece(content: string, aliases: map<string, string>, valid: ValidTail): string {
    match RewriteName(content, aliases, valid)
    case None => "#{" + content + "}"
    case Some(name) => "#{" + name + "}"
  }

  lemma RewriteChar(text: string, i: nat, aliases: map<string, string>, valid: ValidTail)
    requires i < |text| && Content(text[i..]).None?
    ensures Rewrite(text[i..], aliases, valid) == [text[i]] + Rewrite(text[i + 1..], aliases, valid)
  {
    hide Content, Piece;
    assert text[i..][1..] == text[i + 1..];
  }

  lemma PlaceholderAt(text: string, i: nat)
    requires i < |text| && Content(text[i..]).Some?
    ensures var content := Content(text[i..]).value; var end := i + |content| + 3;
            && end <= |text| && text[i..end] == "#{" + content + "}" && text[i..][|content| + 3..] == text[end..]
  {
    hide Content;
    var content := Content(text[i..]).value;
    assert text[i..][..|content| + 3] == text[i..i + |content| + 3];
  }

  lemma RewritePlaceholder(text: string, i: nat, aliases: map<string, string>, valid: ValidTail)
    requires i < |text| && Content(text[i..]).Some?
    ensures var content := Content(text[i..]).value; var end := i + |content| + 3;
            && end <= |text|
            && Rewrite(text[i..], aliases, valid)
               == Piece(content, aliases, valid) + Rewrite(text[end..], aliases, valid)
  {
    hide Content, Piece;
    PlaceholderAt(text, i);
  }

  /** What is written and what is kept since, followed by the rest rewritten, is the whole text rewritten. */
  ghost predicate Turn(builder: string, text: string, offset: nat, index: nat, aliases: map<string, string>,
                       valid: ValidTail) {
    && offset <= index <= |text|
    && builder + text[offset..index] + Rewrite(text[index..], aliases, valid) == Rewrite(text, aliases, valid)
  }

  lemma FirstTurn(text: string, aliases: map<string, string>, valid: ValidTail)
    ensures Turn("", text, 0, 0, aliases, valid)
  {
    hide Rewrite;
    assert text[0..] == text;
    assert "" + text[0..0] + Rewrite(text, aliases, valid) == Rewrite(text, aliases, valid);
  }

  lemma LastTurn(builder: string, text: string, offset: nat, aliases: map<string, string>, valid: ValidTail)
    requires Turn(builder, text, offset, |text|, aliases, valid)
    ensures builder + text[offset..] == Rewrite(text, aliases, valid)
  {
    EmptyRewrite(text, aliases, valid);
    assert text[offset..|text|] == text[offset..];
  }

  lemma KeepTurn(builder: string, text: string, offset: nat, index: nat, next: nat, aliases: map<string, string>,
                 valid: ValidTail)
    requires Turn(builder, text, offset, index, aliases, valid) && index <= next <= |text|
    requires Rewrite(text[index..], aliases, valid) == text[index..next] + Rewrite(text[next..], aliases, valid)
    ensures Turn(builder, text, offset, next, aliases, valid)
  {
    hide Rewrite;
    assert text[offset..index] + text[index..next] == text[offset..next];
  }

  lemma KeepChar(builder: string, text: string, offset: nat, index: nat, aliases: map<string, string>, valid: ValidTail)
    requires Turn(builder, text, offset, index, aliases, valid) && index < |text| && Content(text[index..]).None?
    ensures Turn(builder, text, offset, index + 1, aliases, valid)
  {
    hide Rewrite, Content;
    RewriteChar(text, index, aliases, valid);
    assert text[index..index + 1] == [text[index]];
    KeepTurn(builder, text, offset, index, index + 1, aliases, valid);
  }

  lemma WriteTurn(builder: string, text: string, offset: nat, index: nat, end: nat, piece: string,
                  aliases: map<string, string>, valid: ValidTail)
    requires Turn(builder, text, offset, index, aliases, valid) && index <= end <= |text|
    requires Rewrite(text[index..], aliases, valid) == piece + Rewrite(text[end..], aliases, valid)
    ensures Turn(builder + text[offset..index] + piece, text, end, end, aliases, valid)
  {
    hide Rewrite;
    var rest := Rewrite(text[end..], aliases, valid);
    assert builder + text[offset..index] + piece + text[end..end] + rest
           == builder + text[offset..index] + (piece + rest);
  }

  /** A placeholder found, when its name is not rewritten and when it is. */
  lemma PlaceholderTurn(builder: string, text: string, offset: nat, index: nat, aliases: map<string, string>,
                        valid: ValidTail)
    requires offset <= index < |text| && Turn(builder, text, offset, index, aliases, valid)
             && Content(text[index..]).Some?
    ensures var content := Content(text[index..]).value; var end := index + |content| + 3;
            && end <= |text|
            && match RewriteName(Text.TrimSpace(content), aliases, valid)
               case None => Turn(builder, text, offset, end, aliases, valid)
               case Some(name) => Turn(builder + text[offset..index] + "#{" + name + "}", text, end, end, aliases,
                                       valid)
  {
    hide Rewrite, Content, RewriteName, Text.TrimSpace, Turn;
    PlaceholderAt(text, index);
    RewritePlaceholder(text, index, aliases, valid);
    var content := Content(text[index..]).value;
    var end := index + |content| + 3;
    PieceTrimmed(content, aliases, valid);
    match RewriteName(Text.TrimSpace(content), aliases, valid)
    case None => KeepTurn(builder, text, offset, index, end, aliases, valid);
    case Some(name) =>
      WriteTurn(builder, text, offset, index, end, "#{" + name + "}", aliases, valid);
      assert builder + text[offset..index] + ("#{" + name + "}") == builder + text[offset..index] + "#{" + name + "}";
  }

  method RewriteDynamicParameterAliases(text: string, aliases: map<string, string>,
                                        valid: ValidTail) returns (r: string)
    ensures r == Rewrite(text, aliases, valid)
  {
    hide Content, RewriteName, Rewrite, Text.TrimSpace, Turn;
    var builder := "";
    var offset := 0;
    var changed := false;
    var index := 0;
    FirstTurn(text, aliases, valid);
    while index < |text|
      invariant offset <= index <= |text| && (!changed ==> builder == "" && offset == 0)
      invariant Turn(builder, text, offset, index, aliases, valid)
    {
      if index + 1 >= |text| || text[index] != '#' || text[index + 1] != '{' {
        NoPlaceholder(text[index..]);
        KeepChar(builder, text, offset, index, aliases, valid);
        index := index + 1;
        continue;
      }
      var read := ReadSqlPlaceholderName(text, index);
      if read.None? {
        KeepChar(builder, text, offset, index, aliases, valid);
        index := index + 1;
        continue;
      }
      var (end, name) := read.value;
      PlaceholderTurn(builder, text, offset, index, aliases, valid);
      var rewritten := RewriteDynamicParameterName(name, aliases, valid);
      if rewritten.None? {
        index := end;
        continue;
      }
      changed := true;
      builder := builder + text[offset..index] + "#{" + rewritten.value + "}";
      offset := end;
      index := end;
    }
    LastTurn(builder, text, offset, aliases, valid);
    if !changed {
      assert builder + text[offset..] == text;
      return text;
    }
    return builder + text[offset..];
  }

  lemma NoPlaceholder(s: string)
    requires |s| < 2 || s[0] != '#' || s[1] != '{'
    ensures Content(s).None?
  {
  }

  lemma PieceTrimmed(content: string, aliases: map<string, string>, valid: ValidTail)
    ensures Piece(content, aliases, valid)
         == match RewriteName(Text.TrimSpace(content), aliases, valid)
            case None => "#{" + content + "}"
            case Some(name) => "#{" + name + "}"
  {
    hide SplitName;
    Text.TrimTwice(content);
    hide Text.TrimSpace;
  }

  lemma EmptyRewrite(text: string, aliases: map<string, string>, valid: ValidTail)
    ensures Rewrite(text[|text|..], aliases, valid) == ""
  {
  }

  // ---- the symbols of a text ----

  /** The characters and placeholders of a text; a placeholder with no valid path is left as characters. */
  function Syms<V(!new)>(text: string, valid: ValidTail): Sql<V>
    decreases |text|
  {
    if text == "" then []
    else
      match Content(text)
      case None => [Ch(text[0])] + Syms(text[1..], valid)
      case Some(content) => Symbol(content, valid) + Syms(text[|content| + 3..], valid)
  }

  function Symbol<V(!new)>(content: string, valid: ValidTail): Sql<V> {
    match SplitName(Text.TrimSpace(content), valid)
    case None => Chars("#{" + content + "}")
    case Some((root, tail)) => [Ph(root, tail)]
  }

  predicate Identifiers(aliases: map<string, string>) {
    forall k <- aliases :: Identifier(aliases[k])
  }

  /** Rewriting the text of a fragment renames exactly its placeholders, whatever else the text holds. */
  lemma {:induction false} RewriteRenames<V(!new)>(text: string, aliases: map<string, string>, valid: ValidTail)
    requires Identifiers(aliases)
    ensures Syms<V>(Rewrite(text, aliases, valid), valid) == Renamed(Syms<V>(text, valid), aliases)
    decreases |text|
  {
    hide Content, Piece, Symbol, Identifiers;
    if text != "" {
      match Content(text)
      case None =>
        RewriteRenames<V>(text[1..], aliases, valid);
        var rest := Rewrite(text[1..], aliases, valid);
        StillNone(text, aliases, valid);
        assert ([text[0]] + rest)[1..] == rest;
        assert Renamed<V>([Ch(text[0])], aliases) == [Ch(text[0])];
        RenamedConcat<V>([Ch(text[0])], Syms<V>(text[1..], valid), aliases);
      case Some(content) =>
        RewriteRenames<V>(text[|content| + 3..], aliases, valid);
        PieceSymbol<V>(text, content, aliases, valid);
        var rest := Rewrite(text[|content| + 3..], aliases, valid);
        SymsPiece<V>(Piece(content, aliases, valid), rest, valid);
        RenamedConcat(Symbol<V>(content, valid), Syms<V>(text[|content| + 3..], valid), aliases);
    }
  }

  lemma RenamedConcat<V>(a: Sql<V>, b: Sql<V>, aliases: map<string, string>)
    ensures Renamed(a + b, aliases) == Renamed(a, aliases) + Renamed(b, aliases)
  {
  }

  predicate Placeholder(s: string) {
    |s| >= 3 && s == "#{" + s[2..|s| - 1] + "}" && '{' !in s[2..|s| - 1] && '}' !in s[2..|s| - 1]
  }

  /** A placeholder is read back whatever follows it. */
  lemma SymsPiece<V(!new)>(piece: string, rest: string, valid: ValidTail)
    requires Placeholder(piece)
    ensures Syms<V>(piece + rest, valid) == Symbol(piece[2..|piece| - 1], valid) + Syms<V>(rest, valid)
  {
    hide Content, Symbol;
    var content := piece[2..|piece| - 1];
    ContentBack(content, rest);
    assert piece + rest == "#{" + content + "}" + rest;
    assert (piece + rest)[|content| + 3..] == rest;
  }

  lemma ContentBack(content: string, rest: string)
    requires '{' !in content && '}' !in content
    ensures Content("#{" + content + "}" + rest) == Some(content)
  {
    var s := "#{" + content + "}" + rest;
    assert s[2..] == content + "}" + rest;
    CloseBack(content, rest);
    assert s[2..2 + |content|] == content;
  }

  lemma {:induction false} CloseBack(content: string, rest: string)
    requires '}' !in content
    ensures CloseAt(content + "}" + rest) == |content|
  {
    if content == "" {
      assert content + "}" + rest == "}" + rest;
    } else {
      CloseBack(content[1..], rest);
      assert (content + "}" + rest)[1..] == content[1..] + "}" + rest;
    }
  }

  /** A placeholder rewritten is a placeholder, and reads as the renamed one. */
  lemma PieceSymbol<V(!new)>(text: string, content: string, aliases: map<string, string>, valid: ValidTail)
    requires Content(text) == Some(content) && Identifiers(aliases)
    ensures var piece := Piece(content, aliases, valid);
            && Placeholder(piece)
            && Symbol<V>(piece[2..|piece| - 1], valid) == Renamed(Symbol<V>(content, valid), aliases)
  {
    hide Content, SplitName, Text.TrimSpace;
    var name := SplitName(Text.TrimSpace(content), valid);
    var piece := Piece(content, aliases, valid);
    Text.TrimTwice(content);
    if name.None? || name.value.0 !in aliases {
      assert piece[2..|piece| - 1] == content;
    } else {
      var x := aliases[name.value.0] + name.value.1;
      assert piece[2..|piece| - 1] == x;
      NameBack(content, aliases[name.value.0], valid);
    }
  }

  /** An alias with the path of a name is a trimmed name with that alias and that path, and has no brace. */
  lemma NameBack(content: string, alias: string, valid: ValidTail)
    requires Identifier(alias) && SplitName(Text.TrimSpace(content), valid).Some?
    ensures var tail := SplitName(Text.TrimSpace(content), valid).value.1;
            && Text.TrimSpace(alias + tail) == alias + tail
            && SplitName(alias + tail, valid) == Some((alias, tail))
            && ('{' !in content && '}' !in content ==> '{' !in alias + tail && '}' !in alias + tail)
  {
    hide SplitName, Text.TrimSpace, Identifier;
    var tail := SplitName(Text.TrimSpace(content), valid).value.1;
    TailValid(Text.TrimSpace(content), valid);
    TrimmedBack(content, alias, tail);
    SplitBack(alias, tail, valid);
    NoBraces(alias);
  }

  lemma NoBraces(s: string)
    requires Identifier(s)
    ensures '{' !in s && '}' !in s
  {
    assert forall i :: 0 <= i < |s| ==> IsPart(s[i]);
  }

  lemma TailValid(name: string, valid: ValidTail)
    requires SplitName(name, valid).Some?
    ensures var tail := SplitName(name, valid).value.1;
            && (tail == "" || valid(tail)) && |tail| <= |name| && tail == name[|name| - |tail|..]
  {
  }

  lemma SplitBack(alias: string, tail: Tail, valid: ValidTail)
    requires Identifier(alias) && (tail == "" || valid(tail))
    ensures SplitName(alias + tail, valid) == Some((alias, tail))
  {
    var s := alias + tail;
    assert s[0] == alias[0];
    PartsBack(alias, tail, 1);
    assert s[..|alias|] == alias && s[|alias|..] == tail;
    if tail != "" { assert s[|alias|] == tail[0]; } else { assert s == alias; }
  }

  lemma {:induction false} PartsBack(alias: string, tail: Tail, i: nat)
    requires Identifier(alias) && 1 <= i <= |alias|
    ensures PartsEnd(alias + tail, i) == |alias|
    decreases |alias| - i
  {
    if i < |alias| { PartsBack(alias, tail, i + 1); }
  }

  lemma TrimmedBack(content: string, alias: string, tail: Tail)
    requires Identifier(alias) && |tail| <= |Text.TrimSpace(content)|
    requires tail == Text.TrimSpace(content)[|Text.TrimSpace(content)| - |tail|..]
    ensures Text.TrimSpace(alias + tail) == alias + tail
    ensures forall c <- tail :: c in content
  {
    hide Text.TrimSpace;
    TrimmedPart(content);
    var s := alias + tail;
    var trimmed := Text.TrimSpace(content);
    assert s[0] == alias[0];
    if tail != "" {
      assert s[|s| - 1] == tail[|tail| - 1] == trimmed[|trimmed| - 1];
    } else {
      assert s[|s| - 1] == alias[|alias| - 1];
      assert IsPart(alias[|alias| - 1]);
    }
    NoEdges(s);
    forall c <- tail ensures c in content {
      assert c in trimmed;
    }
  }

  lemma TrimmedPart(content: string)
    ensures var t := Text.TrimSpace(content); (t != "" ==> !Text.IsSpace(t[|t| - 1])) && forall c <- t :: c in content
  {
    var left := Text.TrimLeft(content, Text.IsSpace);
    var t := Text.TrimSpace(content);
    forall c <- t ensures c in content {
      assert c in left;
    }
  }

  lemma NoEdges(s: string)
    requires s != "" && !Text.IsSpace(s[0]) && !Text.IsSpace(s[|s| - 1])
    ensures Text.TrimSpace(s) == s
  {
  }

  // ---- where no placeholder starts ----

  /** The first brace of a text. */
  function Brace(s: string): (r: Option<char>) {
    if s == "" then None else if s[0] == '{' || s[0] == '}' then Some(s[0]) else Brace(s[1..])
  }

  lemma {:induction false} BraceClose(s: string)
    ensures Brace(s) == Some('}') <==> CloseAt(s) < |s| && '{' !in s[..CloseAt(s)]
  {
    if s != "" && s[0] != '}' {
      BraceClose(s[1..]);
      assert s[..CloseAt(s)] == [s[0]] + s[1..][..CloseAt(s[1..])];
    }
  }

  lemma ContentIffBrace(s: string)
    ensures Content(s).Some? <==> |s| >= 2 && s[0] == '#' && s[1] == '{' && Brace(s[2..]) == Some('}')
  {
    if |s| >= 2 {
      BraceClose(s[2..]);
      assert s[2..][..CloseAt(s[2..])] == s[2..2 + CloseAt(s[2..])];
    }
  }

  /** Rewriting keeps the first character and the first brace. */
  lemma {:induction false} RewriteKeepsStart(s: string, aliases: map<string, string>, valid: ValidTail)
    ensures var r := Rewrite(s, aliases, valid);
            && (r == "" <==> s == "") && (s != "" ==> r[0] == s[0]) && Brace(r) == Brace(s)
    decreases |s|
  {
    hide Content, RewriteName;
    if s != "" {
      match Content(s)
      case None =>
        RewriteKeepsStart(s[1..], aliases, valid);
        assert ([s[0]] + Rewrite(s[1..], aliases, valid))[1..] == Rewrite(s[1..], aliases, valid);
      case Some(content) =>
        var r := Rewrite(s, aliases, valid);
        assert r[0] == '#' && r[1] == '{' == s[1];
        assert r[1..][0] == '{' && s[1..][0] == '{';
    }
  }

  /** Rewriting what follows does not make a placeholder where there was none. */
  lemma StillNone(s: string, aliases: map<string, string>, valid: ValidTail)
    requires s != "" && Content(s).None?
    ensures Content([s[0]] + Rewrite(s[1..], aliases, valid)).None?
  {
    hide Content, Piece, Rewrite;
    var rest := Rewrite(s[1..], aliases, valid);
    var r := [s[0]] + rest;
    ContentIffBrace(s);
    ContentIffBrace(r);
    RewriteKeepsStart(s[1..], aliases, valid);
    if |s| >= 2 && s[1] == '{' {
      NoPlaceholder(s[1..]);
      RewriteChar(s, 1, aliases, valid);
      RewriteKeepsStart(s[2..], aliases, valid);
      assert r[2..] == Rewrite(s[2..], aliases, valid);
    }
  }

  // ---- the aliases the renderer makes ----

  /** The aliases of the renderer are identifiers, so the text-level rewriting is the renaming of the rendering. */
  lemma EnteredIdentifiers<V>(c: Context<V>, name: string, value: V)
    requires Identifiers(c.aliases)
    ensures Identifiers(Entered(c, name, value).aliases)
  {
    SanitizedParts(name);
    DigitsParts(c.next);
    var alias := Alias(name, c.next);
    var body := if Sanitized(name) == "" then "item" else Sanitized(name);
    assert alias == PREFIX + body + "_" + Itoa(c.next);
    assert forall i :: 0 <= i < |body| ==> IsPart(body[i]);
    assert Identifier(alias);
  }

  lemma {:induction false} SanitizedParts(s: string)
    ensures forall i :: 0 <= i < |Sanitized(s)| ==> IsPart(Sanitized(s)[i])
  {
    if s != "" { SanitizedParts(s[1..]); }
  }

  lemma DigitsParts(n: nat)
    ensures forall i :: 0 <= i < |Itoa(n)| ==> IsPart(Itoa(n)[i])
  {
    assert forall i :: 0 <= i < |Itoa(n)| ==> Itoa(n)[i] in Digits(n);
  }

  // ---- names and aliases as texts ----

  /** The names that a bind can have are the identifiers. */
  lemma BindNames(s: string)
    ensures ValidIdentifier(s) <==> Identifier(s)
  {
    if ValidIdentifier(s) { assert s[0] != '0' && IsStart(s[0]); }
  }

  lemma {:induction false} NothingSanitized(s: string)
    requires forall c <- s :: IsPart(c)
    ensures Sanitized(s) == s
  {
    if s != "" {
      assert s == [s[0]] + s[1..] && s[0] in s;
      NothingSanitized(s[1..]);
    }
  }

  lemma {:induction false} AllSanitized(s: string)
    requires forall c <- s :: !IsPart(c)
    ensures Sanitized(s) == ""
  {
    if s != "" {
      assert s[0] in s;
      AllSanitized(s[1..]);
    }
  }

  /** The alias of a name of letters, digits and underscores, and of one without any. */
  lemma AliasText(name: string, n: nat)
    ensures name != "" && (forall c <- name :: IsPart(c)) ==>
              Alias(name, n) == "__goark_orm_" + name + "_" + Itoa(n)
    ensures (forall c <- name :: !IsPart(c)) ==> Alias(name, n) == "__goark_orm_item_" + Itoa(n)
  {
    hide Sanitized, Itoa, IsPart;
    assert name != "" ==> name[0] in name;
    if forall c <- name :: !IsPart(c) {
      AllSanitized(name);
      assert PREFIX + "item" + "_" == "__goark_orm_item_";
    }
    if forall c <- name :: IsPart(c) { NothingSanitized(name); }
  }

  /** A path is taken apart into its root and a valid rest. */
  lemma PathTaken(root: string, tail: Tail, valid: ValidTail)
    requires Identifier(root) && (tail != "" ==> valid(tail))
    ensures SplitName(root + tail, valid) == Some((root, tail))
  {
    var name := root + tail;
    assert forall i :: 1 <= i < |root| ==> name[i] == root[i];
    PartsTo(name, 1, |root|);
    if tail == "" { assert name == root; } else { assert name[..|root|] == root && name[|root|..] == tail; }
  }

  lemma {:induction false} PartsTo(s: string, i: nat, n: nat)
    requires i <= n <= |s| && (forall k :: i <= k < n ==> IsPart(s[k])) && (n < |s| ==> !IsPart(s[n]))
    ensures PartsEnd(s, i) == n
    decreases n - i
  {
    if i < n { PartsTo(s, i + 1, n); }
  }
}
