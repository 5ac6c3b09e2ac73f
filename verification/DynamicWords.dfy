/** What trimming, normalising, joining and the WHERE node of dynamic.go do to the words of a fragment. */
module DynamicWords {
  import opened Dynamic
  import Text

  /** The length of the run without white space at the beginning. */
  function Run<V>(s: Sql<V>): (n: nat)
    ensures n <= |s| && (n < |s| ==> IsBlank(s[n])) && forall i :: 0 <= i < n ==> !IsBlank(s[i])
  {
    if s == [] || IsBlank(s[0]) then 0 else 1 + Run(s[1..])
  }

  /** The words of a fragment: what is between its white space. */
  function Words<V>(s: Sql<V>): (ws: seq<Sql<V>>)
    decreases |s|
  {
    if s == [] then []
    else if IsBlank(s[0]) then Words(s[1..])
    else [s[..Run(s)]] + Words(s[Run(s)..])
  }

  function AllWords<V>(parts: seq<Sql<V>>): seq<Sql<V>> {
    if parts == [] then [] else Words(parts[0]) + AllWords(parts[1..])
  }

  lemma {:induction false} RunThen<V>(a: Sql<V>, b: Sql<V>)
    requires b == [] || IsBlank(b[0])
    ensures Run(a + b) == Run(a)
  {
    if a == [] {
      assert a + b == b;
    } else {
      assert (a + b)[1..] == a[1..] + b;
      RunThen(a[1..], b);
    }
  }

  /** White space separates words. */
  lemma {:induction false} WordsApart<V>(a: Sql<V>, b: Sql<V>)
    requires b == [] || IsBlank(b[0])
    ensures Words(a + b) == Words(a) + Words(b)
    decreases |a|
  {
    if a == [] {
      assert a + b == b;
    } else if IsBlank(a[0]) {
      assert (a + b)[1..] == a[1..] + b;
      WordsApart(a[1..], b);
    } else {
      var n := Run(a);
      RunThen(a, b);
      assert (a + b)[..n] == a[..n] && (a + b)[n..] == a[n..] + b;
      WordsApart(a[n..], b);
      hide Words, Run;
      WordsFrom(a);
      WordsFrom(a + b);
    }
  }

  lemma WordsFrom<V>(s: Sql<V>)
    requires s != [] && !IsBlank(s[0])
    ensures Run(s) > 0 && Words(s) == [s[..Run(s)]] + Words(s[Run(s)..])
  {
  }

  lemma WordsAround<V>(a: Sql<V>, x: Sym<V>, b: Sql<V>)
    requires IsBlank(x)
    ensures Words(a + [x] + b) == Words(a) + Words(b)
  {
    assert a + [x] + b == a + ([x] + b) && ([x] + b)[1..] == b;
    WordsApart(a, [x] + b);
  }

  lemma {:induction false} TrimLeftWords<V>(s: Sql<V>)
    ensures Words(TrimLeft(s)) == Words(s)
  {
    if s != [] && IsBlank(s[0]) { TrimLeftWords(s[1..]); }
  }

  lemma {:induction false} TrimRightWords<V>(s: Sql<V>)
    ensures Words(TrimRight(s)) == Words(s)
  {
    if s != [] && IsBlank(s[|s| - 1]) {
      var a, x := s[..|s| - 1], s[|s| - 1];
      TrimRightWords(a);
      assert s == a + [x] + [];
      WordsAround(a, x, []);
    }
  }

  lemma TrimWords<V>(s: Sql<V>)
    ensures Words(Trim(s)) == Words(s)
  {
    hide Words;
    TrimLeftWords(s);
    TrimRightWords(TrimLeft(s));
  }

  /** Joining keeps all words, in order, and adds none. */
  lemma {:induction false} JoinedWords<V>(parts: seq<Sql<V>>)
    ensures Words(Joined(parts)) == AllWords(parts)
  {
    if parts != [] {
      var first, rest := Trim(parts[0]), Joined(parts[1..]);
      JoinedWords(parts[1..]);
      TrimWords(parts[0]);
      WordsAround(first, Ch(' '), rest);
    }
  }

  lemma {:induction false} LinesWords<V>(s: Sql<V>)
    ensures AllWords(Lines(s)) == Words(s)
    decreases |s|
  {
    var i := LineEnd(s);
    if i == |s| {
      assert [s][1..] == [];
    } else {
      LinesWords(s[i + 1..]);
      LineEndIs(s);
      assert s == s[..i] + [s[i]] + s[i + 1..];
      WordsAround(s[..i], s[i], s[i + 1..]);
      var lines := [s[..i]] + Lines(s[i + 1..]);
      assert lines[0] == s[..i] && lines[1..] == Lines(s[i + 1..]);
    }
  }

  lemma {:induction false} LineEndIs<V>(s: Sql<V>)
    ensures LineEnd(s) < |s| ==> s[LineEnd(s)] == Ch('\n')
  {
    if s != [] && s[0] != Ch('\n') { LineEndIs(s[1..]); }
  }

  /** Normalising a fragment keeps its words. */
  lemma NormalizedWords<V>(s: Sql<V>)
    ensures Words(Normalized(s)) == Words(s)
  {
    hide Words, AllWords;
    TrimWords(s);
    LinesWords(Trim(s));
    JoinedWords(Lines(Trim(s)));
  }

  // ---- the WHERE node ----

  /** A symbol is a letter in either case, or exactly another character. */
  predicate SameLetter<V>(x: Sym<V>, c: char) {
    && x.Ch?
    && (|| x.c == c
        || ('A' <= c <= 'Z' && x.c as int == c as int + 32)
        || ('a' <= c <= 'z' && x.c as int == c as int - 32))
  }

  /** A text has a word at a position, in any letter case. */
  predicate WordAt<V>(s: Sql<V>, p: nat, word: string) {
    p + |word| <= |s| && forall i :: 0 <= i < |word| ==> SameLetter(s[p + i], word[i])
  }

  lemma SameLetterIs<V>(x: Sym<V>, c: char)
    ensures SameLetter(x, c) <==> x.Ch? && Text.UpperChar(x.c) == Text.UpperChar(c)
  {
  }

  lemma WordAtStarts<V>(s: Sql<V>, p: nat, word: string)
    requires p <= |s|
    ensures WordAt(s, p, word) <==> StartsWith(s[p..], word)
  {
    hide SameLetter, Text.UpperChar;
    if p + |word| <= |s| {
      forall i | 0 <= i < |word|
        ensures s[p..][i] == s[p + i]
        ensures SameLetter(s[p + i], word[i])
           <==> s[p + i].Ch? && Text.UpperChar(s[p + i].c) == Text.UpperChar(word[i])
      {
        SameLetterIs(s[p + i], word[i]);
      }
    }
  }

  predicate Is<V>(w: Sql<V>, word: string) {
    |w| == |word| && WordAt(w, 0, word)
  }

  lemma IsStart<V>(w: Sql<V>, word: string)
    ensures Is(w, word) <==> |w| == |word| && StartsWith(w, word)
  {
    hide StartsWith, WordAt;
    WordAtStarts(w, 0, word);
    assert w[0..] == w;
  }

  /** Whether the first word is AND or OR, with a space or nothing after it. */
  predicate Connected<V>(s: Sql<V>) {
    var n := Run(s);
    (Is(s[..n], "AND") || Is(s[..n], "OR")) && (n == |s| || s[n] == Ch(' '))
  }

  lemma {:induction false} RunIs<V>(s: Sql<V>, n: nat)
    requires n <= |s| && (n < |s| ==> IsBlank(s[n])) && forall i :: 0 <= i < n ==> !IsBlank(s[i])
    ensures Run(s) == n
  {
    if n > 0 { RunIs(s[1..], n - 1); }
  }

  /** A word with a space or nothing after it. */
  predicate Leads<V>(s: Sql<V>, word: string) {
    StartsWith(s, word) && (|s| == |word| || s[|word|] == Ch(' '))
  }

  predicate Letters(word: string) {
    word != "" && forall i :: 0 <= i < |word| ==> 'A' <= word[i] <= 'Z'
  }

  lemma LettersSolid<V>(s: Sql<V>, word: string)
    requires Letters(word) && StartsWith(s, word)
    ensures forall i :: 0 <= i < |word| ==> !IsBlank(s[i])
  {
    forall i | 0 <= i < |word|
      ensures !IsBlank(s[i])
    {
      assert Text.UpperChar(s[i].c) == Text.UpperChar(word[i]) == word[i];
    }
  }

  lemma LeadsIsFirst<V>(s: Sql<V>, word: string)
    requires Letters(word)
    ensures Leads(s, word) <==> Is(s[..Run(s)], word) && (Run(s) == |s| || s[Run(s)] == Ch(' '))
  {
    hide Letters, Run, Text.UpperChar, Is;
    IsStart(s[..Run(s)], word);
    if Leads(s, word) {
      LettersSolid(s, word);
      RunIs(s, |word|);
    }
  }

  lemma RemovedFirst<V>(s: Sql<V>, words: seq<string>)
    requires words != [] && words[0] != "" && Text.TrimSpace(words[0]) == words[0]
    ensures RemovePrefix(s, words) == if Leads(s, words[0]) then Trim(s[|words[0]|..]) else RemovePrefix(s, words[1..])
  {
    hide Text.TrimSpace, Text.UpperChar, Trim;
    NothingTrimmed<V>();
    if |s| == |words[0]| { assert s[|words[0]|..] == []; }
  }

  lemma LettersTrimmed(word: string)
    requires Letters(word)
    ensures Text.TrimSpace(word) == word
  {
    assert !Text.IsSpace(word[0]) && !Text.IsSpace(word[|word| - 1]);
    assert Text.TrimLeft(word, Text.IsSpace) == word;
  }

  lemma NothingRemoved<V>(s: Sql<V>)
    ensures RemovePrefix(s, []) == s
  {
  }

  lemma RemovedIs<V>(s: Sql<V>)
    ensures RemovePrefix(s, ["AND", "OR"])
         == if Leads(s, "AND") then Trim(s[3..]) else if Leads(s, "OR") then Trim(s[2..]) else s
  {
    hide Text.TrimSpace, StartsWith, Trim, RemovePrefix;
    LettersTrimmed("AND");
    LettersTrimmed("OR");
    assert ["AND", "OR"][1..] == ["OR"] && ["OR"][1..] == [];
    RemovedFirst(s, ["AND", "OR"]);
    RemovedFirst(s, ["OR"]);
    NothingRemoved(s);
    if Leads(s, "AND") { LeadsLength(s, "AND"); }
    if Leads(s, "OR") { LeadsLength(s, "OR"); }
  }

  lemma NothingTrimmed<V>()
    ensures Trim<V>([]) == []
  {
  }

  /** A leading AND or OR is dropped, and nothing else. */
  lemma ConnectiveDropped<V>(s: Sql<V>)
    ensures Words(RemovePrefix(s, ["AND", "OR"])) == if Connected(s) then Words(s)[1..] else Words(s)
  {
    hide Words, Leads, RemovePrefix, Trim, Run;
    LeadsIsFirst(s, "AND");
    LeadsIsFirst(s, "OR");
    RemovedIs(s);
    if Connected(s) {
      FirstWord(s);
      TrimWords(s[Run(s)..]);
    }
  }

  lemma FirstWord<V>(s: Sql<V>)
    requires Connected(s)
    ensures Words(s) != [] && Words(s)[1..] == Words(s[Run(s)..])
  {
    assert Run(s) > 0;
    WordsFrom(s);
  }

  /** What a WHERE node makes of its children: the word WHERE before their words without a leading AND or OR. */
  lemma WhereWords<V, E>(w: World<V>, children: seq<Node<V, E>>, c: Context<V>)
    requires Render(w, Where(children), c).0.Ok?
    ensures RenderChildren(w, children, c).0.Ok?
    ensures var content := Trim(RenderChildren(w, children, c).0.value);
            var kept := if Connected(content) then Words(content)[1..] else Words(content);
            Words(Render(w, Where(children), c).0.value) == if kept == [] then [] else [Chars("WHERE")] + kept
  {
    hide Words, RenderChildren, Connected, Trim, RemovePrefix;
    var content := Trim(RenderChildren(w, children, c).0.value);
    ConnectiveDropped(content);
    var kept := RemovePrefix(content, ["AND", "OR"]);
    PrefixedWords("WHERE", kept);
    RemovedTrimmed(RenderChildren(w, children, c).0.value);
  }

  lemma PrefixedWords<V>(word: string, content: Sql<V>)
    requires Letters(word)
    ensures Words(Prefixed(word, content)) == if content == [] then [] else [Chars(word)] + Words(content)
  {
    hide Words, Run;
    NoWords<V>();
    if content != [] {
      var s: Sql<V> := Chars(word);
      WordsAround(s, Ch(' '), content);
      OneWord(s);
    }
  }

  lemma NoWords<V>()
    ensures Words<V>([]) == []
  {
  }

  lemma OneWord<V>(s: Sql<V>)
    requires s != [] && forall i :: 0 <= i < |s| ==> !IsBlank(s[i])
    ensures Words(s) == [s]
  {
    RunIs(s, |s|);
    WordsFrom(s);
    assert s[..|s|] == s && s[|s|..] == [];
  }

  /** After the connective is dropped there are words or there is nothing. */
  lemma RemovedTrimmed<V>(s: Sql<V>)
    ensures var kept := RemovePrefix(Trim(s), ["AND", "OR"]); kept == [] <==> Words(kept) == []
  {
    hide Words, Leads, RemovePrefix, Trim;
    var t := Trim(s);
    RemovedIs(t);
    TrimmedHasWords(s);
    if Leads(t, "AND") {
      LeadsLength(t, "AND");
      TrimmedHasWords(t[3..]);
    } else if Leads(t, "OR") {
      LeadsLength(t, "OR");
      TrimmedHasWords(t[2..]);
    }
  }

  lemma LeadsLength<V>(s: Sql<V>, word: string)
    requires Leads(s, word)
    ensures |word| <= |s|
  {
  }

  lemma TrimmedHasWords<V>(s: Sql<V>)
    ensures Trim(s) == [] <==> Words(Trim(s)) == []
  {
    TrimLeftFront(s);
    TrimRightFront(TrimLeft(s));
    if Trim(s) != [] {
      WordsFrom(Trim(s));
    }
  }

  lemma {:induction false} TrimLeftFront<V>(s: Sql<V>)
    ensures TrimLeft(s) != [] ==> !IsBlank(TrimLeft(s)[0])
  {
    if s != [] && IsBlank(s[0]) { TrimLeftFront(s[1..]); }
  }

  lemma {:induction false} TrimRightFront<V>(s: Sql<V>)
    ensures TrimRight(s) <= s
  {
    if s != [] && IsBlank(s[|s| - 1]) {
      TrimRightFront(s[..|s| - 1]);
    }
  }

  // ---- the SET node ----

  /** A fragment without the comma at its end, if there is one. */
  function Unended<V>(s: Sql<V>): Sql<V> {
    if s != [] && s[|s| - 1] == Ch(',') then s[..|s| - 1] else s
  }

  lemma CommaRemoved<V>(s: Sql<V>)
    ensures RemoveSuffix(s, [","]) == if Unended(s) == s then s else Trim(Unended(s))
  {
    assert Text.TrimSpace(",") == ",";
    assert [","][1..] == [];
    if s != [] {
      var last := s[|s| - 1..];
      assert last[0] == s[|s| - 1];
      assert StartsWith(last, ",") <==> last[0] == Ch(',');
    }
  }

  /** What a SET node makes of its children: the word SET before their words without a comma at the end. */
  lemma SetWords<V, E>(w: World<V>, children: seq<Node<V, E>>, c: Context<V>)
    requires Render(w, SetNode(children), c).0.Ok?
    ensures RenderChildren(w, children, c).0.Ok?
    ensures var kept := Words(Unended(Trim(RenderChildren(w, children, c).0.value)));
            Words(Render(w, SetNode(children), c).0.value) == if kept == [] then [] else [Chars("SET")] + kept
  {
    hide Words, RenderChildren, Trim, RemoveSuffix;
    var s := RenderChildren(w, children, c).0.value;
    var content := Trim(s);
    CommaRemoved(content);
    TrimWords(Unended(content));
    PrefixedWords("SET", RemoveSuffix(content, [","]));
    TrimmedHasWords(s);
    TrimmedHasWords(Unended(content));
  }
}
