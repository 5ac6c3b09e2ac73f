/**
 Normalising the text of a fragment, dynamic.go, against normalising its characters and placeholders: they agree as
 long as no placeholder is broken over two lines.
 */
module DynamicText {
  import opened Dynamic
  import opened DynamicAlias
  import opened Prelude
  import Text

  // ---- what the source computes ----

  function NewlineAt(s: string): (i: nat)
    ensures i <= |s| && (i < |s| ==> s[i] == '\n') && forall k :: 0 <= k < i ==> s[k] != '\n'
  {
    if s == "" || s[0] == '\n' then 0 else 1 + NewlineAt(s[1..])
  }

  /** `strings.Split(s, "\n")`. */
  function TextLines(s: string): (lines: seq<string>)
    decreases |s|
  {
    var i := NewlineAt(s);
    if i == |s| then [s] else [s[..i]] + TextLines(s[i + 1..])
  }

  /** The lines, trimmed, without the empty ones. */
  function Kept(lines: seq<string>): seq<string> {
    if lines == [] then []
    else
      var line := Text.TrimSpace(lines[0]);
      (if line == "" then [] else [line]) + Kept(lines[1..])
  }

  function NormalText(raw: string): string {
    if '\n' !in raw then Text.TrimSpace(raw) else Text.Join(Kept(TextLines(Text.TrimSpace(raw))), " ")
  }

  lemma {:induction false} KeptMore(lines: seq<string>, line: string)
    ensures Kept(lines + [line])
         == Kept(lines) + (if Text.TrimSpace(line) == "" then [] else [Text.TrimSpace(line)])
  {
    hide Text.TrimSpace;
    if lines == [] {
      assert lines + [line] == [line] && [line][1..] == [];
    } else {
      assert (lines + [line])[1..] == lines[1..] + [line];
      KeptMore(lines[1..], line);
    }
  }

  method NormalizeSqlFragment(raw: string) returns (r: string)
    ensures r == NormalText(raw)
  {
    hide Text.TrimSpace, Text.Join;
    if '\n' !in raw {
      return Text.TrimSpace(raw);
    }
    var lines := TextLines(Text.TrimSpace(raw));
    var normalized: seq<string> := [];
    for i := 0 to |lines|
      invariant normalized == Kept(lines[..i])
    {
      assert lines[..i + 1] == lines[..i] + [lines[i]];
      KeptMore(lines[..i], lines[i]);
      var line := Text.TrimSpace(lines[i]);
      if line != "" {
        normalized := normalized + [line];
      }
    }
    assert lines[..|lines|] == lines;
    return Text.Join(normalized, " ");
  }

  // ---- where placeholders end ----

  /** No placeholder holds a newline. */
  predicate Unbroken(text: string)
    decreases |text|
  {
    if text == "" then true
    else
      match Content(text)
      case None => Unbroken(text[1..])
      case Some(content) => '\n' !in content && Unbroken(text[|content| + 3..])
  }

  /** A placeholder is begun and not closed, and no brace comes after its own. */
  predicate Pending(text: string)
    decreases |text|
  {
    if text == "" then false
    else
      match Content(text)
      case None => (|text| >= 2 && text[0] == '#' && text[1] == '{' && Brace(text[2..]) == None) || Pending(text[1..])
      case Some(content) => Pending(text[|content| + 3..])
  }

  predicate IsBrace(c: char) {
    c == '{' || c == '}'
  }

  lemma {:induction false} BraceConcat(a: string, b: string)
    ensures Brace(a + b) == if Brace(a).Some? then Brace(a) else Brace(b)
  {
    if a == "" {
      assert a + b == b;
    } else {
      assert (a + b)[1..] == a[1..] + b;
      BraceConcat(a[1..], b);
    }
  }

  /** A placeholder at the beginning is the same whatever follows. */
  lemma ContentMore(a: string, b: string)
    requires Content(a).Some?
    ensures Content(a + b) == Content(a)
  {
    hide Content;
    var content := ContentText(a);
    ContentBack(content, a[|content| + 3..] + b);
    assert a + b == "#{" + content + "}" + (a[|content| + 3..] + b);
  }

  lemma ContentNone(a: string, b: string)
    requires Content(a + b).None?
    ensures Content(a).None?
  {
    hide Content;
    if Content(a).Some? { ContentMore(a, b); }
  }

  lemma ContentText(a: string) returns (content: string)
    requires Content(a).Some?
    ensures Content(a) == Some(content) && |content| + 3 <= |a| && a == "#{" + content + "}" + a[|content| + 3..]
    ensures '{' !in content && '}' !in content
  {
    content := Content(a).value;
    assert a == a[..|content| + 3] + a[|content| + 3..];
  }

  /** Without a placeholder at the beginning, one begins there only when what follows closes one that is pending. */
  lemma ContentJoin(x: string, c: char, y: string)
    requires x != "" && Content(x).None? && !IsBrace(c) && !(Pending(x) && Brace(y) == Some('}'))
    ensures Content(x + [c] + y).None?
  {
    hide Content;
    var all := x + [c] + y;
    ContentIffBrace(x);
    ContentIffBrace(all);
    if |x| >= 2 && x[0] == '#' && x[1] == '{' {
      assert all[2..] == x[2..] + ([c] + y);
      BraceConcat(x[2..], [c] + y);
      assert ([c] + y)[1..] == y;
    }
  }

  lemma SymsNone<V(!new)>(s: string, valid: ValidTail)
    requires s != "" && Content(s).None?
    ensures Syms<V>(s, valid) == [Ch(s[0])] + Syms<V>(s[1..], valid)
  {
    hide Content, Symbol;
  }

  lemma SymsSome<V(!new)>(s: string, content: string, valid: ValidTail)
    requires Content(s) == Some(content)
    ensures |content| + 3 <= |s| && Syms<V>(s, valid) == Symbol<V>(content, valid) + Syms<V>(s[|content| + 3..], valid)
  {
    hide Symbol;
  }

  lemma Regroup<V>(p: Sql<V>, a: Sql<V>, x: Sym<V>, b: Sql<V>)
    ensures p + (a + [x] + b) == (p + a) + [x] + b
  {
  }

  /** The symbols of two texts with a character between them, when no placeholder reaches over it. */
  lemma {:induction false} SymsJoin<V(!new)>(x: string, c: char, y: string, valid: ValidTail)
    requires !IsBrace(c) && c != '#' && !(Pending(x) && Brace(y) == Some('}'))
    ensures Syms<V>(x + [c] + y, valid) == Syms<V>(x, valid) + [Ch(c)] + Syms<V>(y, valid)
    decreases |x|
  {
    hide Content, Symbol, Brace, Syms;
    var all := x + [c] + y;
    if x == "" {
      assert all == [c] + y && all[1..] == y;
      NoPlaceholder(all);
      SymsNone<V>(all, valid);
      NoSyms<V>(valid);
    } else {
      match Content(x)
      case None =>
        ContentJoin(x, c, y);
        assert all[1..] == x[1..] + [c] + y;
        SymsJoin<V>(x[1..], c, y, valid);
        SymsNone<V>(all, valid);
        SymsNone<V>(x, valid);
        Regroup([Ch(x[0])], Syms<V>(x[1..], valid), Ch(c), Syms<V>(y, valid));
      case Some(content) =>
        ContentMore(x, [c] + y);
        assert x + ([c] + y) == all;
        SymsSome<V>(all, content, valid);
        SymsSome<V>(x, content, valid);
        var rest := x[|content| + 3..];
        assert all[|content| + 3..] == rest + [c] + y;
        SymsJoin<V>(rest, c, y, valid);
        Regroup(Symbol<V>(content, valid), Syms<V>(rest, valid), Ch(c), Syms<V>(y, valid));
    }
  }

  /** Splitting an unbroken text at a newline. */
  lemma {:induction false} UnbrokenSplit(a: string, b: string)
    requires Unbroken(a + "\n" + b)
    ensures Unbroken(a) && Unbroken(b) && !(Pending(a) && Brace(b) == Some('}'))
    decreases |a|
  {
    hide Content;
    var all := a + "\n" + b;
    if a == "" {
      assert all[1..] == b;
      NoPlaceholder(all);
    } else {
      match Content(all)
      case None =>
        assert all[1..] == a[1..] + "\n" + b;
        UnbrokenSplit(a[1..], b);
        assert a + ("\n" + b) == all;
        ContentNone(a, "\n" + b);
        PendingHere(a, b);
      case Some(content) =>
        Inside(a, b, content);
        var rest := a[|content| + 3..];
        assert all[|content| + 3..] == rest + "\n" + b;
        UnbrokenSplit(rest, b);
    }
  }

  /** Where a placeholder is pending and the next brace would close it there is a placeholder. */
  lemma PendingHere(a: string, b: string)
    requires a != "" && Content(a + "\n" + b).None?
    ensures Brace(b) == Some('}') ==> !(|a| >= 2 && a[0] == '#' && a[1] == '{' && Brace(a[2..]) == None)
  {
    hide Content;
    var all := a + "\n" + b;
    ContentIffBrace(all);
    if |a| >= 2 {
      assert all[2..] == a[2..] + ("\n" + b);
      BraceConcat(a[2..], "\n" + b);
      assert ("\n" + b)[1..] == b;
    }
  }

  /** A placeholder without newline ends before the newline. */
  lemma Inside(a: string, b: string, content: string)
    requires Content(a + "\n" + b) == Some(content) && '\n' !in content
    ensures |content| + 3 <= |a| && Content(a) == Some(content)
  {
    hide Content;
    var all := a + "\n" + b;
    var same := ContentText(all);
    var head := "#{" + content + "}";
    assert '\n' !in head && all == head + all[|head|..];
    assert forall i :: 0 <= i < |head| ==> all[i] == head[i] && head[i] in head;
    assert all[|a|] == '\n';
    assert a == "#{" + content + "}" + a[|content| + 3..];
    ContentBack(content, a[|content| + 3..]);
  }

  // ---- white space at the ends ----

  /** White space before a text. */
  lemma SpaceBefore<V(!new)>(s: string, valid: ValidTail)
    requires s != "" && Text.IsSpace(s[0])
    ensures TrimLeft(Syms<V>(s, valid)) == TrimLeft(Syms<V>(s[1..], valid)) && Brace(s) == Brace(s[1..])
    ensures (Unbroken(s) <==> Unbroken(s[1..])) && (Pending(s) <==> Pending(s[1..]))
  {
    hide Content, Symbol, Syms, TrimLeft;
    NoPlaceholder(s);
    SymsNone<V>(s, valid);
    SpaceFirst(s[0], Syms<V>(s[1..], valid));
  }

  lemma {:induction false} SpacesBefore<V(!new)>(s: string, n: nat, valid: ValidTail)
    requires n <= |s| && forall i :: 0 <= i < n ==> Text.IsSpace(s[i])
    ensures var t := s[n..];
            && TrimLeft(Syms<V>(s, valid)) == TrimLeft(Syms<V>(t, valid)) && Brace(s) == Brace(t)
            && (Unbroken(s) <==> Unbroken(t)) && (Pending(s) <==> Pending(t))
  {
    hide *;
    if n == 0 {
      assert s[0..] == s;
    } else {
      SpacesBefore<V>(s, n - 1, valid);
      assert s[n - 1..][1..] == s[n..];
      SpaceBefore<V>(s[n - 1..], valid);
    }
  }

  lemma TrimLeftText<V(!new)>(s: string, valid: ValidTail)
    requires Unbroken(s)
    ensures var t := Text.TrimLeft(s, Text.IsSpace);
            Syms<V>(t, valid) == TrimLeft(Syms<V>(s, valid)) && Brace(t) == Brace(s) && Unbroken(t)
              && (Pending(t) <==> Pending(s))
  {
    hide *;
    var t := Text.TrimLeft(s, Text.IsSpace);
    SpacesBefore<V>(s, |s| - |t|, valid);
    if t == "" { NoSyms<V>(valid); } else { FirstSym<V>(t, valid); }
    NothingToTrim(Syms<V>(t, valid));
  }

  lemma NothingToTrim<V>(s: Sql<V>)
    requires s == [] || !IsBlank(s[0])
    ensures TrimLeft(s) == s
  {
  }

  lemma SpaceFirst<V>(c: char, s: Sql<V>)
    requires Text.IsSpace(c)
    ensures TrimLeft([Ch(c)] + s) == TrimLeft(s)
  {
    assert ([Ch(c)] + s)[1..] == s;
  }

  /** The first symbol of a text that does not start with white space is not white space. */
  lemma FirstSym<V(!new)>(s: string, valid: ValidTail)
    requires s != "" && !Text.IsSpace(s[0])
    ensures Syms<V>(s, valid) != [] && !IsBlank(Syms<V>(s, valid)[0])
  {
    hide SplitName, Text.TrimSpace, Text.IsSpace;
  }

  /** White space after a text. */
  lemma SymsSpace<V(!new)>(s: string, c: char, valid: ValidTail)
    requires Text.IsSpace(c)
    ensures Syms<V>(s + [c], valid) == Syms<V>(s, valid) + [Ch(c)] && Brace(s + [c]) == Brace(s)
  {
    hide Content, Symbol;
    SymsJoin<V>(s, c, "", valid);
    assert s + [c] + "" == s + [c];
    assert Syms<V>("", valid) == [];
    BraceConcat(s, [c]);
    assert [c][1..] == "";
  }

  lemma {:induction false} PendingSpace(s: string, c: char)
    requires Text.IsSpace(c)
    ensures Pending(s + [c]) <==> Pending(s)
    ensures Unbroken(s + [c]) <==> Unbroken(s)
    decreases |s|
  {
    hide Content, Brace;
    var all := s + [c];
    if s == "" {
      assert all[1..] == "";
      NoPlaceholder(all);
    } else {
      match Content(s)
      case None =>
        NoBrace();
        ContentJoin(s, c, "");
        assert s + [c] + "" == all;
        assert all[1..] == s[1..] + [c];
        PendingSpace(s[1..], c);
        PendingFirst(s, c);
      case Some(content) =>
        ContentMore(s, [c]);
        assert all[|content| + 3..] == s[|content| + 3..] + [c];
        PendingSpace(s[|content| + 3..], c);
    }
  }

  lemma PendingFirst(s: string, c: char)
    requires s != "" && Text.IsSpace(c)
    ensures (|s| >= 2 && s[0] == '#' && s[1] == '{' && Brace(s[2..]) == None)
       <==> (|s + [c]| >= 2 && (s + [c])[0] == '#' && (s + [c])[1] == '{' && Brace((s + [c])[2..]) == None)
  {
    if |s| >= 2 {
      assert (s + [c])[2..] == s[2..] + [c];
      BraceConcat(s[2..], [c]);
      assert [c][1..] == "";
    }
  }

  lemma {:induction false} TrimRightText<V(!new)>(s: string, valid: ValidTail)
    requires Unbroken(s)
    ensures var t := Text.TrimRight(s, Text.IsSpace);
            Syms<V>(t, valid) == TrimRight(Syms<V>(s, valid)) && Brace(t) == Brace(s) && Unbroken(t)
              && (Pending(t) <==> Pending(s))
    decreases |s|
  {
    hide Content, Symbol, Syms, Unbroken, Pending, Text.TrimRight;
    Text.TrimRightOne(s, Text.IsSpace);
    if s != "" {
      var p, c := s[..|s| - 1], s[|s| - 1];
      assert s == p + [c];
      if Text.IsSpace(c) {
        SymsSpace<V>(p, c, valid);
        PendingSpace(p, c);
        TrimRightText<V>(p, valid);
        var syms := Syms<V>(s, valid);
        assert syms[|syms| - 1] == Ch(c) && syms[..|syms| - 1] == Syms<V>(p, valid);
      } else {
        LastSym<V>(s, valid);
      }
    } else {
      NoSyms<V>(valid);
    }
  }

  lemma NoSyms<V(!new)>(valid: ValidTail)
    ensures Syms<V>("", valid) == []
  {
  }

  /** The last symbol of a text that does not end in white space is not white space. */
  lemma {:induction false} LastSym<V(!new)>(s: string, valid: ValidTail)
    requires s != "" && !Text.IsSpace(s[|s| - 1])
    ensures var syms := Syms<V>(s, valid); syms != [] && !IsBlank(syms[|syms| - 1])
    decreases |s|
  {
    hide Content, SplitName, Text.TrimSpace, Text.IsSpace;
    match Content(s)
    case None =>
      NoSyms<V>(valid);
      if |s| > 1 { LastSym<V>(s[1..], valid); }
    case Some(content) =>
      var same := ContentText(s);
      NoSyms<V>(valid);
      var rest := s[|content| + 3..];
      SymbolEnd<V>(content, valid);
      if rest != "" { LastSym<V>(rest, valid); }
  }

  lemma SymbolEnd<V(!new)>(content: string, valid: ValidTail)
    ensures var x := Symbol<V>(content, valid); x != [] && !IsBlank(x[|x| - 1])
  {
    hide SplitName, Text.TrimSpace;
    var text := "#{" + content + "}";
    assert text[|text| - 1] == '}' && !Text.IsSpace('}');
  }

  /** Trimming a text trims its symbols. */
  lemma TrimText<V(!new)>(s: string, valid: ValidTail)
    requires Unbroken(s)
    ensures var t := Text.TrimSpace(s);
            Syms<V>(t, valid) == Trim(Syms<V>(s, valid)) && Brace(t) == Brace(s) && Unbroken(t)
              && (Pending(t) <==> Pending(s))
  {
    hide Content, Syms, Unbroken, Pending, Brace;
    TrimLeftText<V>(s, valid);
    TrimRightText<V>(Text.TrimLeft(s, Text.IsSpace), valid);
  }

  // ---- lines ----

  /** A text without newline has no line end among its symbols. */
  lemma {:induction false} NoLineEnd<V(!new)>(s: string, valid: ValidTail)
    requires '\n' !in s
    ensures Ch('\n') !in Syms<V>(s, valid)
    decreases |s|
  {
    hide Content, SplitName, Text.TrimSpace;
    if s != "" {
      match Content(s)
      case None => NoLineEnd<V>(s[1..], valid);
      case Some(content) =>
        var same := ContentText(s);
        assert forall c <- "#{" + content + "}" :: c in s;
        NoLineEnd<V>(s[|content| + 3..], valid);
    }
  }

  lemma {:induction false} LineEndBefore<V>(a: Sql<V>, b: Sql<V>)
    requires Ch('\n') !in a
    ensures LineEnd(a) == |a| && LineEnd(a + [Ch('\n')] + b) == |a|
  {
    if a == [] {
      assert a + [Ch('\n')] + b == [Ch('\n')] + b;
    } else {
      assert (a + [Ch('\n')] + b)[1..] == a[1..] + [Ch('\n')] + b;
      LineEndBefore(a[1..], b);
    }
  }

  lemma NewlineSplit(s: string)
    ensures var i := NewlineAt(s);
            if i == |s| then '\n' !in s else s == s[..i] + "\n" + s[i + 1..] && '\n' !in s[..i]
  {
    hide *;
    var i := NewlineAt(s);
    if i < |s| {
      SplitAtIndex(s, i);
      assert [s[i]] == "\n";
    }
  }

  lemma SplitAtIndex(s: string, i: nat)
    requires i < |s|
    ensures s == s[..i] + [s[i]] + s[i + 1..]
  {
  }

  lemma LinesStep<V(!new)>(s: string, valid: ValidTail)
    requires Unbroken(s)
    ensures var i := NewlineAt(s);
            if i == |s| then Lines(Syms<V>(s, valid)) == [Syms<V>(s, valid)]
            else Lines(Syms<V>(s, valid)) == [Syms<V>(s[..i], valid)] + Lines(Syms<V>(s[i + 1..], valid))
  {
    hide Content, Symbol, Syms, Unbroken, Pending, Brace, NewlineAt;
    NewlineSplit(s);
    var i := NewlineAt(s);
    if i == |s| {
      NoLineEnd<V>(s, valid);
      LineEndBefore(Syms<V>(s, valid), []);
    } else {
      var a, b := s[..i], s[i + 1..];
      UnbrokenSplit(a, b);
      SymsJoin<V>(a, '\n', b, valid);
      NoLineEnd<V>(a, valid);
      var x, y := Syms<V>(a, valid), Syms<V>(b, valid);
      LineEndBefore(x, y);
      assert (x + [Ch('\n')] + y)[..|x|] == x && (x + [Ch('\n')] + y)[|x| + 1..] == y;
    }
  }

  lemma EmptySyms<V(!new)>(s: string, valid: ValidTail)
    ensures Syms<V>(s, valid) == [] <==> s == ""
  {
    hide Content, SplitName, Text.TrimSpace;
    if s != "" && Content(s).Some? { SymbolEnd<V>(Content(s).value, valid); }
  }

  function JoinedText(s: string): string {
    Text.Join(Kept(TextLines(s)), " ")
  }

  /** The first line and the rest. */
  lemma JoinedStep(s: string)
    ensures var i := NewlineAt(s);
            if i == |s| then JoinedText(s) == Text.TrimSpace(s)
            else
              var first, rest := Text.TrimSpace(s[..i]), JoinedText(s[i + 1..]);
              JoinedText(s) == if first == "" then rest else if rest == "" then first else first + " " + rest
  {
    hide Text.TrimSpace, NewlineAt, Text.Join, Kept;
    var i := NewlineAt(s);
    if i == |s| {
      KeptOne(s);
    } else {
      KeptFirst(s[..i], TextLines(s[i + 1..]));
    }
  }

  lemma KeptOne(s: string)
    ensures Text.Join(Kept([s]), " ") == Text.TrimSpace(s)
  {
    hide Text.TrimSpace;
    assert [s][1..] == [];
  }

  lemma KeptFirst(line: string, lines: seq<string>)
    ensures var first, rest := Text.TrimSpace(line), Text.Join(Kept(lines), " ");
            Text.Join(Kept([line] + lines), " ")
            == if first == "" then rest else if rest == "" then first else first + " " + rest
  {
    hide Text.TrimSpace;
    var first := Text.TrimSpace(line);
    assert ([line] + lines)[1..] == lines;
    assert [] + Kept(lines) == Kept(lines);
    assert Kept([line] + lines) == (if first == "" then [] else [first]) + Kept(lines);
    KeptNotEmpty(lines);
    JoinFirst(first, Kept(lines));
  }

  lemma JoinFirst(first: string, rest: seq<string>)
    requires forall l <- rest :: l != ""
    ensures Text.Join([first] + rest, " ")
            == if Text.Join(rest, " ") == "" then first else first + " " + Text.Join(rest, " ")
  {
    assert ([first] + rest)[1..] == rest;
    JoinNotEmpty(rest);
  }

  lemma {:induction false} KeptNotEmpty(lines: seq<string>)
    ensures forall l <- Kept(lines) :: l != ""
  {
    hide Text.TrimSpace;
    if lines != [] { KeptNotEmpty(lines[1..]); }
  }

  lemma JoinNotEmpty(parts: seq<string>)
    requires forall l <- parts :: l != ""
    ensures Text.Join(parts, " ") == "" <==> parts == []
  {
    if parts != [] { assert parts[0] in parts; }
  }

  /** Joining the lines of a text joins the lines of its symbols; braces stay as they are. */
  lemma {:induction false} LinesJoined<V(!new)>(s: string, valid: ValidTail)
    requires Unbroken(s)
    ensures Syms<V>(JoinedText(s), valid) == Joined(Lines(Syms<V>(s, valid))) && Brace(JoinedText(s)) == Brace(s)
    decreases |s|
  {
    hide Content, Symbol, Syms, Unbroken, Pending, Brace, NewlineAt, Text.TrimSpace, JoinedText, Trim, Lines;
    NewlineSplit(s);
    JoinedStep(s);
    LinesStep<V>(s, valid);
    var i := NewlineAt(s);
    if i == |s| {
      TrimText<V>(s, valid);
      OneLine(Syms<V>(s, valid));
    } else {
      var a, b := s[..i], s[i + 1..];
      UnbrokenSplit(a, b);
      LinesJoined<V>(b, valid);
      TrimText<V>(a, valid);
      var first, rest := Text.TrimSpace(a), JoinedText(b);
      EmptySyms<V>(first, valid);
      EmptySyms<V>(rest, valid);
      SymsJoin<V>(first, ' ', rest, valid);
      FirstLine(Syms<V>(a, valid), Lines(Syms<V>(b, valid)));
      BraceOver(a, '\n', b);
      BraceOver(first, ' ', rest);
      NoBrace();
    }
  }

  lemma OneLine<V>(s: Sql<V>)
    ensures Joined([s]) == Trim(s)
  {
    assert [s][1..] == [];
  }

  lemma FirstLine<V>(a: Sql<V>, lines: seq<Sql<V>>)
    ensures Joined([a] + lines)
         == var first, rest := Trim(a), Joined(lines);
            if first == [] then rest else if rest == [] then first else first + [Ch(' ')] + rest
  {
    assert ([a] + lines)[1..] == lines;
  }

  lemma BraceOver(a: string, c: char, b: string)
    requires !IsBrace(c)
    ensures Brace(a + [c] + b) == if Brace(a).Some? then Brace(a) else Brace(b)
  {
    assert a + [c] + b == a + ([c] + b) && ([c] + b)[1..] == b;
    BraceConcat(a, [c] + b);
  }

  lemma NoBrace()
    ensures Brace("") == None
  {
  }

  /** Normalising the text of a fragment normalises its symbols, when no placeholder is broken over two lines. */
  lemma NormalSyms<V(!new)>(text: string, valid: ValidTail)
    requires Unbroken(text)
    ensures Syms<V>(NormalText(text), valid) == Normalized(Syms<V>(text, valid))
  {
    hide Content, Symbol, Syms, Unbroken, Pending, Brace, NewlineAt, Text.TrimSpace, Trim, Lines;
    TrimText<V>(text, valid);
    WholeLine<V>(text, valid);
    LinesJoined<V>(Text.TrimSpace(text), valid);
  }

  /** There is a newline in the text exactly when there is a line end among its symbols. */
  lemma WholeLine<V(!new)>(s: string, valid: ValidTail)
    requires Unbroken(s)
    ensures '\n' !in s <==> LineEnd(Syms<V>(s, valid)) == |Syms<V>(s, valid)|
  {
    hide Content, Symbol, Syms, Unbroken, Pending, Brace, NewlineAt;
    NewlineSplit(s);
    var i := NewlineAt(s);
    if i == |s| {
      NoLineEnd<V>(s, valid);
      LineEndBefore(Syms<V>(s, valid), []);
    } else {
      UnbrokenSplit(s[..i], s[i + 1..]);
      SymsJoin<V>(s[..i], '\n', s[i + 1..], valid);
      NoLineEnd<V>(s[..i], valid);
      LineEndBefore(Syms<V>(s[..i], valid), Syms<V>(s[i + 1..], valid));
      assert s[i] == '\n';
    }
  }

  /**
   The text of a fragment, normalised and renamed by characters, is the fragment normalised and renamed by symbols.
   */
  lemma TextRendered<V(!new)>(text: string, aliases: map<string, string>, valid: ValidTail)
    requires Unbroken(text) && Identifiers(aliases)
    ensures Syms<V>(Rewrite(NormalText(text), aliases, valid), valid)
            == Renamed(Normalized(Syms<V>(text, valid)), aliases)
  {
    hide Content, Symbol, Syms, Unbroken, Rewrite, NormalText, Normalized, Renamed;
    NormalSyms<V>(text, valid);
    RewriteRenames<V>(NormalText(text), aliases, valid);
  }
}
