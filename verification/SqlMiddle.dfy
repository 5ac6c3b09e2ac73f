/**
 The text between the two rewritings of `applyOptimisticLock`: when the statement's body does not end in a comment, the
 assignment leaves it fit for the condition.
 */
module SqlMiddle {
  import opened Prelude
  import opened SqlLexer
  import opened SqlScan
  import opened SqlRewrite
  import opened SqlList
  import opened SqlOrder
  import opened SqlUpdate
  import Text

  // ---- prefixes ----

  lemma PrefixCut(p: string, q: string, i: nat)
    requires i < |p| && Agree(p, q, |p|) && Cut(q, i).closed && Cut(q, i).end < |p|
    ensures Cut(p, i) == Cut(q, i)
  {
    hide LineEnd, BlockEnd, BraceEnd, QuoteEnd, WordEnd;
    CutTruncate(p, q, i);
    if Cut(q, i).kind.Comment? {
      assert p[i] == q[i];
      if q[i] == '-' { LineEndAgree(p, q, i + 2); } else { BlockEndAgree(p, q, i + 2); }
    }
  }

  /** A prefix has the lexemes that end before its own end. */
  lemma {:induction false} PrefixSame(p: string, q: string, i: nat, k: nat)
    requires i <= |p| && Agree(p, q, |p|) && k <= |Lex(q, i)| && AllClosed(Lex(q, i)[..k])
    requires i + Width(Lex(q, i)[..k]) < |p|
    ensures k <= |Lex(p, i)| && Lex(p, i)[..k] == Lex(q, i)[..k]
    decreases k
  {
    hide Cut, Lex, Width, AllClosed;
    if k > 0 {
      EmptyLex(q, i);
      TakeStep(q, i, k);
      LexFrom(q, i);
      var x := Cut(q, i);
      PrefixCut(p, q, i);
      PrefixSame(p, q, x.end, k - 1);
      LexFrom(p, i);
      assert p[i..x.end] == q[i..x.end];
      assert Lex(p, i)[..k] == [Lexeme(x.kind, p[i..x.end], x.closed)] + Lex(p, x.end)[..k - 1];
    }
  }

  // ---- white space at the end ----

  lemma {:induction false} SpaceRun(s: string, i: nat)
    requires i <= |s| && forall k :: i <= k < |s| ==> IsSqlSpace(s[k])
    ensures (forall l <- Lex(s, i) :: l.kind.Space? && l.closed) && Sig(Lex(s, i)) == []
    decreases |s| - i
  {
    if i < |s| {
      assert Cut(s, i) == Extent(Space, i + 1, true);
      SpaceRun(s, i + 1);
    }
  }

  /** A text whose trimmed part is closed. */
  lemma TrimmedLex(q: string, r: string)
    requires |r| <= |q| && r == q[..|r|] && AllClosed(Lex(r, 0)) && forall k :: |r| <= k < |q| ==> IsSqlSpace(q[k])
    ensures Lex(q, 0) == Lex(r, 0) + Lex(q[|r|..], 0) && AllClosed(Lex(q, 0))
    ensures forall l <- Lex(q[|r|..], 0) :: l.kind.Space?
  {
    hide Cut, Lex;
    var s := q[|r|..];
    assert q == r + s;
    SpaceRun(s, 0);
    LexAppend(r, s);
  }

  lemma {:induction false} TrimTwo(s: string)
    ensures var b, a := Text.TrimRight(s, Text.IsBlank), Text.TrimRight(s, Text.IsSpace);
            |a| <= |b| && a == b[..|a|] && forall k :: |a| <= k < |b| ==> Text.IsSpace(b[k])
  {
    var b, a := Text.TrimRight(s, Text.IsBlank), Text.TrimRight(s, Text.IsSpace);
    assert a != "" ==> a[|a| - 1] == s[|a| - 1];
    forall k | |a| <= k < |b|
      ensures Text.IsSpace(b[k])
    {
      assert b[k] == s[k];
    }
  }

  /** The body of a statement does not end in a comment that trimming would leave open. */
  predicate BodyEnds(query: string) {
    AllClosed(Lex(Text.TrimRight(HeadText(query), Text.IsSpace), 0))
  }

  /** Trimming less leaves it closed too. */
  lemma BlankClosed(s: string)
    requires '\U{000B}' !in s && AllClosed(Lex(Text.TrimRight(s, Text.IsSpace), 0))
    ensures AllClosed(Lex(Text.TrimRight(s, Text.IsBlank), 0))
  {
    hide Lex;
    TrimTwo(s);
    var b, a := Text.TrimRight(s, Text.IsBlank), Text.TrimRight(s, Text.IsSpace);
    forall k | |a| <= k < |b|
      ensures IsSqlSpace(b[k])
    {
      assert b[k] in s;
    }
    TrimmedLex(b, a);
  }

  // ---- the body ----

  /** What the splicing needs of a text, besides its order: no comment that would swallow the condition. */
  predicate Spliceable(text: string) {
    CleanText(text) && AllClosed(Lex(Text.TrimRight(HeadText(text), Text.IsBlank), 0))
  }

  lemma HeadClean(query: string)
    requires '\U{000B}' !in query
    ensures '\U{000B}' !in HeadText(query)
  {
    hide BodyEnd, Text.TrimRight;
    var body := query[..BodyEnd(query)];
    TrimChars(body);
  }

  lemma TrimChars(s: string)
    ensures forall c <- Text.TrimRight(s, Text.IsBlank) :: c in s
    ensures forall c <- Text.TrimRight(s, Text.IsSpace) :: c in s
  {
  }

  lemma QuerySpliceable(query: string)
    requires CleanText(query) && BodyEnds(query)
    ensures Spliceable(query)
  {
    hide Lex, HeadText, Text.TrimRight, Tidy;
    HeadClean(query);
    BlankClosed(HeadText(query));
  }

  /** The lexemes before the trailing clauses, and that they are closed when there are any. */
  lemma BodyLex(query: string)
    ensures var ls := Lex(query, 0); var t := TailIndex(ls, true);
            && Lex(query[..BodyEnd(query)], 0) == ls[..t] && BodyEnd(query) == Width(ls[..t])
            && (t < |ls| ==> AllClosed(ls[..t]) && BodyEnd(query) < |query|)
            && (t == |ls| ==> BodyEnd(query) == |query|)
  {
    hide Cut, Lex, TailIndex, Width, AllClosed;
    var ls := Lex(query, 0);
    var t := TailIndex(ls, true);
    BodyEndIs(query);
    LexWidth(query, 0);
    if t == |ls| {
      assert ls[..t] == ls && query[..|query|] == query;
    } else {
      ClosedBefore(query, 0, t);
      TailWordAt(ls);
      LexDrop(query, 0, t);
      EmptyLex(query, BodyEnd(query));
      StartsNext(query, BodyEnd(query));
      WordStarts(query, BodyEnd(query));
      LexTakeClosed(query, 0, t);
    }
  }

  lemma WordStarts(q: string, i: nat)
    requires i < |q| && Lex(q, i)[0].kind.Word?
    ensures IsIdentStart(q[i]) && q[i] != '\n'
  {
    LexFirst(q, i);
  }

  /** The WHERE of an UPDATE in order comes before its trailing clauses. */
  lemma WhereBeforeTail(ls: seq<Lexeme>)
    requires InOrder(Sig(ls))
    ensures var k, t := WhereIndex(ls), TailIndex(ls, true); k <= t && (k < |ls| ==> k < t)
  {
    hide Sig, WhereIndex, TailIndex, Is, TailWord, InOrder, HasSet, AfterSet, Seek;
    var k, t := WhereIndex(ls), TailIndex(ls, true);
    InOrderBound(Sig(ls));
    WhereCount(ls);
    TailIndexCount(ls);
    TailWordAt(ls);
    if t < k { SigMore(ls, t, k); }
    if k < |ls| { NotBoth(ls); }
  }

  lemma InOrderBound(ts: seq<Lexeme>)
    requires InOrder(ts)
    ensures WhereIndex(ts) <= TailIndex(ts, true)
  {
  }

  lemma NotBoth(ls: seq<Lexeme>)
    requires WhereIndex(ls) < |ls|
    ensures WhereIndex(ls) != TailIndex(ls, true)
  {
    hide Sig, WhereIndex, TailIndex, Is, TailWord;
    WhereThere(ls);
    TailThere(ls);
    NoTailWhere(ls[WhereIndex(ls)]);
  }

  lemma WhereThere(ls: seq<Lexeme>)
    requires WhereIndex(ls) < |ls|
    ensures Is(ls[WhereIndex(ls)], "where")
  {
    hide Is, AfterSet;
    SeekHit(ls[AfterSet(ls)..], 0, Keyword("where"));
  }

  lemma TailThere(ls: seq<Lexeme>)
    ensures TailIndex(ls, true) < |ls| ==> TailWord(ls[TailIndex(ls, true)])
  {
    hide Is, ScanStart, TailWord, TailClause;
    var s := ScanStart(ls);
    var k := Seek(ls[s..], 0, Tail(true));
    SeekHit(ls[s..], 0, Tail(true));
    if s + k < |ls| { TailNeedsWord(ls[s + k], Sig(ls[s..][k + 1..]), true); }
  }

  lemma {:induction false} TrimSuffix(s: string, n: nat, p: char -> bool)
    requires n < |s| && !p(s[n])
    ensures |Text.TrimRight(s, p)| > n && Text.TrimRight(s, p)[n..] == Text.TrimRight(s[n..], p)
    decreases |s|
  {
    if p(s[|s| - 1]) {
      var shorter := s[..|s| - 1];
      TrimSuffix(shorter, n, p);
      assert Text.TrimRight(s, p) == Text.TrimRight(shorter, p);
      assert s[n..] != "" && shorter[n..] == s[n..][..|s[n..]| - 1];
    } else {
      assert Text.TrimRight(s, p) == s;
    }
  }

  lemma {:induction false} TrimTwice(s: string, p: char -> bool)
    ensures Text.TrimRight(Text.TrimRight(s, p), p) == Text.TrimRight(s, p)
  {
    var r := Text.TrimRight(s, p);
    if r != "" { assert !p(r[|r| - 1]); }
  }

  /** The end of a closed prefix of a text, from one of the text's lexemes on. */
  lemma SuffixClosed(q: string, a: string, k: nat)
    requires Agree(a, q, |a|) && AllClosed(Lex(a, 0)) && k <= |Lex(q, 0)| && AllClosed(Lex(q, 0)[..k])
    requires Width(Lex(q, 0)[..k]) < |a|
    ensures var n := Width(Lex(q, 0)[..k]);
            && k <= |Lex(a, 0)| && Lex(a, 0)[..k] == Lex(q, 0)[..k] && Lex(a[n..], 0) == Lex(a, 0)[k..]
            && AllClosed(Lex(a[n..], 0))
  {
    hide Cut, Lex, Width;
    PrefixSame(a, q, 0, k);
    LexDrop(a, 0, k);
    LexShift(a, Width(Lex(q, 0)[..k]), 0);
  }

  /** The statement's body from its WHERE on, without white space at the end. */
  function Rest(query: string): string {
    var n := WhereText(query);
    if n == |query| then ""
    else if BodyEnd(query) == |query| then Text.TrimRight(query[n..], Text.IsSpace)
    else if n <= BodyEnd(query) then Text.TrimRight(query[n..BodyEnd(query)], Text.IsBlank)
    else ""
  }

  /** What the assignment leaves before the WHERE. */
  function Assigned(query: string, a: string): string {
    Text.TrimRight(query[..WhereText(query)], Text.IsBlank) + ", " + a
  }

  /** The WHERE in the text and among its lexemes. */
  lemma WherePlace(query: string)
    requires UpdateText(query) && InOrder(Tokens(query)) && WhereText(query) < |query|
    ensures var ls := Lex(query, 0); var k := WhereIndex(ls);
            && k < |ls| && AllClosed(ls[..k]) && Width(ls[..k]) == WhereText(query) < BodyEnd(query)
            && IsIdentStart(query[WhereText(query)]) && Lex(query, WhereText(query)) == ls[k..]
  {
    hide Cut, Lex, Width, HasSet, WhereIndex, TailIndex, WhereText, BodyEnd, AllClosed, CleanText, Sig, OneBlock;
    SetKept(query);
    WhereSplit(query);
    var ls := Lex(query, 0);
    ClosedBefore(query, 0, WhereIndex(ls));
    WordStarts(query, WhereText(query));
    WhereBeforeTail(ls);
    BodyLex(query);
    WidthLess(ls, WhereIndex(ls), TailIndex(ls, true), query);
  }

  lemma WidthLess(ls: seq<Lexeme>, k: nat, t: nat, q: string)
    requires ls == Lex(q, 0) && k < t <= |ls|
    ensures Width(ls[..k]) < Width(ls[..t])
  {
    hide Lex, Width;
    assert ls[..t] == ls[..k] + ls[k..t];
    WidthConcat(ls[..k], ls[k..t]);
    LexDrop(q, 0, k);
    var i := Width(ls[..k]);
    EmptyLex(q, i);
    LexNonEmpty(q, i);
    assert ls[k..t][0] == Lex(q, i)[0];
    WidthFirst(ls[k..t]);
  }

  lemma WidthFirst(ls: seq<Lexeme>)
    requires ls != []
    ensures Width(ls) >= |ls[0].text|
  {
  }

  /** The rest is closed, starts with the WHERE, and does not end in white space. */
  lemma RestClosed(query: string)
    requires UpdateText(query) && InOrder(Tokens(query)) && BodyEnds(query) && WhereText(query) < |query|
    ensures AllClosed(Lex(Rest(query), 0))
    ensures Rest(query) != "" && IsIdentStart(Rest(query)[0]) && !Text.IsBlank(Rest(query)[|Rest(query)| - 1])
  {
    hide Cut, Lex, Width, HasSet, WhereIndex, TailIndex, WhereText, BodyEnd, AllClosed, Sig, OneBlock, Text.TrimRight,
         Tidy, InOrder;
    WherePlace(query);
    var n, k := WhereText(query), WhereIndex(Lex(query, 0));
    IdentNoSpace(query[n]);
    if BodyEnd(query) == |query| {
      var a := Text.TrimRight(query, Text.IsSpace);
      TrimPrefix(query, Text.IsSpace);
      TrimSuffix(query, n, Text.IsSpace);
      SuffixClosed(query, a, k);
      TrimEnd(query[n..], Text.IsSpace);
    } else {
      var body := query[..BodyEnd(query)];
      var a := Text.TrimRight(body, Text.IsBlank);
      HeadClean(query);
      BlankClosed(HeadText(query));
      TrimTwice(body, Text.IsBlank);
      TrimPrefix(body, Text.IsBlank);
      TrimSuffix(body, n, Text.IsBlank);
      assert body[n..] == query[n..BodyEnd(query)];
      assert a == query[..|a|];
      SuffixClosed(query, a, k);
      TrimEnd(body[n..], Text.IsBlank);
    }
  }

  lemma IdentNoSpace(c: char)
    requires IsIdentStart(c)
    ensures !Text.IsSpace(c) && !Text.IsBlank(c)
  {
  }

  lemma TrimPrefix(s: string, p: char -> bool)
    ensures |Text.TrimRight(s, p)| <= |s| && Text.TrimRight(s, p) == s[..|Text.TrimRight(s, p)|]
  {
  }

  lemma TrimEnd(s: string, p: char -> bool)
    requires s != "" && !p(s[0]) && forall c :: Text.IsBlank(c) ==> p(c)
    ensures var r := Text.TrimRight(s, p); r != "" && r[0] == s[0] && !Text.IsBlank(r[|r| - 1])
  {
    TrimSuffix(s, 0, p);
  }

  // ---- the text after the assignment ----

  /** An assignment that can be put into a text. */
  predicate PlainEnd(a: string) {
    a != "" && !Text.IsBlank(a[|a| - 1]) && '\U{000B}' !in a && AllClosed(Lex(a, 0))
  }

  lemma AssignedLex(query: string, a: string)
    requires UpdateText(query) && PlainEnd(a)
    ensures var b := Text.TrimRight(query[..WhereText(query)], Text.IsBlank);
            Lex(Assigned(query, a), 0) == Lex(b, 0) + ([CommaSign, Lexeme(Space, " ", true)] + Lex(a, 0))
    ensures AllClosed(Lex(Assigned(query, a), 0))
    ensures '\U{000B}' !in Assigned(query, a)
  {
    hide Cut, Lex, HasSet, Text.TrimRight, Tidy, WhereText;
    var b := Text.TrimRight(query[..WhereText(query)], Text.IsBlank);
    TrimChars(query[..WhereText(query)]);
    CommaAppend(a);
    LexAppend(b, ", " + a);
    assert b + (", " + a) == Assigned(query, a);
  }

  /** The text after the assignment. */
  function Middle(query: string, a: string): string {
    Assigned(query, a) + Led(Text.TrimSpace(query[WhereText(query)..]))
  }

  lemma MiddleIs(query: string, a: string)
    requires UpdateText(query)
    ensures AssignedText(query, a) == Ok(Middle(query, a))
  {
    hide Lex, HasSet, Text.TrimRight, Text.TrimSpace, WhereText, Tidy;
    SetKept(query);
    var n := WhereText(query);
    if n < |query| {
      WhereSuffixTrimmed(query);
    } else {
      NothingTrimmed();
      assert query[n..] == "";
    }
  }

  lemma NothingTrimmed()
    ensures Text.TrimSpace("") == ""
  {
  }

  /** The text from the WHERE on, trimmed, is not empty. */
  lemma WhereSuffixTrimmed(query: string)
    requires UpdateText(query) && WhereText(query) < |query|
    ensures var n := WhereText(query); var w := Text.TrimSpace(query[n..]);
            w != "" && w == Text.TrimRight(query[n..], Text.IsSpace) && IsIdentStart(query[n]) && w[0] == query[n]
  {
    hide Lex, HasSet, WhereText, Tidy, WhereIndex;
    SetKept(query);
    WhereSplit(query);
    var n := WhereText(query);
    WordStarts(query, n);
    TrimWordLed(query[n..]);
    IdentNoSpace(query[n]);
    TrimEnd(query[n..], Text.IsSpace);
  }

  /** The trailing clauses of the text start as many lexemes later as the assignment and its comma are. */
  lemma MiddleTail(query: string, a: string)
    requires UpdateText(query) && InOrder(Tokens(query)) && AllClosed(Lex(a, 0)) && Assignment(Tokens(a))
    ensures Tokens(Middle(query, a)) == Assign(Tokens(query), Tokens(a))
    ensures TailIndex(Tokens(Middle(query, a)), true) == TailIndex(Tokens(query), true) + 1 + |Tokens(a)|
  {
    hide Lex, Sig, Tokens, UpdateText, InOrder, Assignment, AssignedText, Assign, TailIndex, Middle;
    AssignedTokens(query, a);
    MiddleIs(query, a);
    AssignedTail(Tokens(query), Tokens(a));
  }

  /** Without a WHERE the middle text ends with the assignment. */
  lemma MiddleWithout(query: string, a: string)
    requires UpdateText(query) && InOrder(Tokens(query)) && PlainEnd(a) && Assignment(Tokens(a))
    requires WhereText(query) == |query|
    ensures Middle(query, a) == Assigned(query, a) && BodyEnd(Middle(query, a)) == |Middle(query, a)|
  {
    hide Lex, Sig, Tokens, UpdateText, InOrder, Assignment, Assign, TailIndex, WhereText, PlainEnd, Text.TrimSpace,
         HasSet;
    NothingTrimmed();
    assert query[|query|..] == "";
    assert Assigned(query, a) + "" == Assigned(query, a);
    UpdateTextSet(query);
    PlainClosed(a);
    MiddleTail(query, a);
    NoTailWithout(query);
    AssignedSize(Tokens(query), Tokens(a));
    AllBody(Middle(query, a));
  }

  lemma UpdateTextSet(query: string)
    requires UpdateText(query)
    ensures HasSet(Tokens(query)) && HasSet(Lex(query, 0)) && CleanText(query)
  {
    hide Lex, HasSet, Tidy, WhereText;
    SetKept(query);
  }

  lemma PlainClosed(a: string)
    requires PlainEnd(a)
    ensures AllClosed(Lex(a, 0)) && a != "" && !Text.IsBlank(a[|a| - 1]) && '\U{000B}' !in a
  {
  }

  lemma AssignedSize(ts: seq<Lexeme>, a: seq<Lexeme>)
    ensures |Assign(ts, a)| == |ts| + 1 + |a|
  {
    hide Seek, AfterSet;
  }

  /** Without a WHERE there are no trailing clauses in an UPDATE in order. */
  lemma NoTailWithout(query: string)
    requires HasSet(Lex(query, 0)) && InOrder(Tokens(query)) && WhereText(query) == |query|
    ensures TailIndex(Tokens(query), true) == |Tokens(query)|
  {
    hide Lex, Sig, TailIndex, WhereText, HasSet, WhereIndex, InOrder, Width;
    WhereSplit(query);
    var ls := Lex(query, 0);
    WhereCount(ls);
    InOrderBound(Sig(ls));
    assert ls[..|ls|] == ls;
  }

  /** A text whose meaningful lexemes have no trailing clause has none. */
  lemma AllBody(text: string)
    requires TailIndex(Tokens(text), true) == |Tokens(text)|
    ensures BodyEnd(text) == |text|
  {
    hide Lex, Sig, TailIndex, BodyEnd, Width;
    var ls := Lex(text, 0);
    var t := TailIndex(ls, true);
    TailIndexCount(ls);
    TailWordAt(ls);
    BodyLex(text);
    assert ls[..|ls|] == ls;
    if t < |ls| { SigMore(ls, t, |ls|); }
  }

  /** A text up to its trailing clauses, found in what is left of the text when it is trimmed. */
  lemma TrimmedTail(query: string)
    requires UpdateText(query) && InOrder(Tokens(query)) && WhereText(query) < |query| && BodyEnd(query) < |query|
    ensures var n, e := WhereText(query), BodyEnd(query); var w := Text.TrimSpace(query[n..]);
            var ls := Lex(query, 0); var k, t := WhereIndex(ls), TailIndex(ls, true); var m := t - k;
            && n < e && k < t <= |ls| && e - n < |w| && w[..e - n] == query[n..e]
            && m < |Lex(w, 0)| && Lex(w, 0)[..m] == ls[k..t] && Lex(w, 0)[m].kind.Word? && Width(ls[k..t]) == e - n
  {
    hide Cut, Lex, Width, HasSet, WhereIndex, TailIndex, WhereText, BodyEnd, AllClosed, CleanText, Sig, OneBlock,
         InOrder, Text.TrimRight, Text.TrimSpace;
    var ls := Lex(query, 0);
    var n, e, k, t := WhereText(query), BodyEnd(query), WhereIndex(ls), TailIndex(ls, true);
    WherePlace(query);
    WhereSuffixTrimmed(query);
    WhereBeforeTail(ls);
    BodyLex(query);
    TailStart(query);
    var q, w := query[n..], Text.TrimSpace(query[n..]);
    IdentNoSpace(query[e]);
    assert q[e - n] == query[e];
    TrimSuffix(q, e - n, Text.IsSpace);
    TrimPrefix(q, Text.IsSpace);
    assert w[..e - n] == query[n..e];
    LexShift(query, n, 0);
    assert ls[k..t] == ls[k..][..t - k];
    assert ls[..t] == ls[..k] + ls[k..t];
    WidthConcat(ls[..k], ls[k..t]);
    ClosedPartOf(ls, k, t);
    PrefixSame(w, q, 0, t - k);
    LexDrop(w, 0, t - k);
    EmptyLex(w, e - n);
    StartsWord(w, e - n);
  }

  lemma ClosedPartOf(ls: seq<Lexeme>, k: nat, t: nat)
    requires k <= t <= |ls| && AllClosed(ls[..t])
    ensures AllClosed(ls[k..t])
  {
    forall l | l in ls[k..t]
      ensures l in ls[..t]
    {
    }
  }

  lemma StartsWord(q: string, i: nat)
    requires i < |q| && IsIdentStart(q[i])
    ensures Lex(q, i) != [] && Lex(q, i)[0].kind.Word?
  {
    CutIdentPart(q, i);
  }

  /** The lexemes of the middle text. */
  lemma MiddleLex(query: string, a: string)
    requires UpdateText(query) && PlainEnd(a) && WhereText(query) < |query|
    ensures var w := Text.TrimSpace(query[WhereText(query)..]); var sp := [Lexeme(Space, " ", true)];
            && Middle(query, a) == Assigned(query, a) + " " + w
            && Lex(Middle(query, a), 0) == Lex(Assigned(query, a), 0) + (sp + Lex(w, 0))
  {
    hide Cut, Lex, HasSet, WhereText, Tidy, Text.TrimRight, Text.TrimSpace, Assigned;
    WhereSuffixTrimmed(query);
    var p, w := Assigned(query, a), Text.TrimSpace(query[WhereText(query)..]);
    AssignedLex(query, a);
    SpaceAppend(w);
    LexAppend(p, " " + w);
    assert p + (" " + w) == p + " " + w;
  }

  /** The meaningful lexemes before the WHERE, with the assignment. */
  lemma AssignedCount(query: string, a: string)
    requires UpdateText(query) && PlainEnd(a)
    ensures |Tokens(Assigned(query, a))| == |Sig(Lex(query, 0)[..WhereIndex(Lex(query, 0))])| + 1 + |Tokens(a)|
  {
    hide Cut, Lex, HasSet, WhereText, Tidy, Text.TrimRight, Sig, WhereIndex, Assigned;
    UpdateTextSet(query);
    AssignedLex(query, a);
    var b := Text.TrimRight(query[..WhereText(query)], Text.IsBlank);
    var comma := [CommaSign, Lexeme(Space, " ", true)];
    SigConcat(Lex(b, 0), comma + Lex(a, 0));
    SigConcat(comma, Lex(a, 0));
    CommaSig();
    WhereTokens(query);
    WhereCount(Lex(query, 0));
  }

  lemma CommaSig()
    ensures Sig([CommaSign, Lexeme(Space, " ", true)]) == [CommaSign]
  {
    assert [CommaSign, Lexeme(Space, " ", true)][1..] == [Lexeme(Space, " ", true)];
    SigOne(Lexeme(Space, " ", true));
  }

  /** The middle text up to its trailing clauses. */
  lemma MiddleBody(query: string, a: string)
    requires UpdateText(query) && InOrder(Tokens(query)) && PlainEnd(a) && Assignment(Tokens(a))
    requires WhereText(query) < |query| && BodyEnd(query) < |query|
    ensures var n, e := WhereText(query), BodyEnd(query); var mid := Middle(query, a);
            n < e && BodyEnd(mid) < |mid| && mid[..BodyEnd(mid)] == Assigned(query, a) + " " + query[n..e]
  {
    hide Cut, Lex, Width, HasSet, WhereIndex, TailIndex, WhereText, BodyEnd, AllClosed, CleanText, Sig, OneBlock,
         InOrder, Text.TrimRight, Text.TrimSpace, Middle, Assigned, Tokens, Assignment, PlainEnd, UpdateText;
    var mid, p := Middle(query, a), Assigned(query, a);
    MiddleIndex(query, a);
    TrimmedTail(query);
    BodyLex(mid);
    MiddleLex(query, a);
    MiddleWidth(query, a);
    var n, e := WhereText(query), BodyEnd(query);
    var w := Text.TrimSpace(query[n..]);
    assert mid[..|p| + 1 + (e - n)] == p + " " + w[..e - n];
  }

  /** Where the trailing clauses of the middle text start among its lexemes. */
  lemma MiddleIndex(query: string, a: string)
    requires UpdateText(query) && InOrder(Tokens(query)) && PlainEnd(a) && Assignment(Tokens(a))
    requires WhereText(query) < |query| && BodyEnd(query) < |query|
    ensures var ls := Lex(query, 0); var k, t := WhereIndex(ls), TailIndex(ls, true);
            k <= t && TailIndex(Lex(Middle(query, a), 0), true) == |Lex(Assigned(query, a), 0)| + 1 + (t - k)
  {
    hide Cut, Lex, Width, HasSet, WhereIndex, TailIndex, WhereText, BodyEnd, AllClosed, CleanText, OneBlock, InOrder,
         Text.TrimRight, Text.TrimSpace, Middle, Assigned, Assignment, PlainEnd, UpdateText, Sig;
    PlainClosed(a);
    MiddleTail(query, a);
    MiddleLex(query, a);
    TrimmedTail(query);
    AssignedCount(query, a);
    var ls, ms, ps := Lex(query, 0), Lex(Middle(query, a), 0), Lex(Assigned(query, a), 0);
    var ws := Lex(Text.TrimSpace(query[WhereText(query)..]), 0);
    var k, t := WhereIndex(ls), TailIndex(ls, true);
    TailIndexCount(ls);
    TailIndexCount(ms);
    TailWordAt(ms);
    var sp := [Lexeme(Space, " ", true)];
    var at := |ps| + 1 + (t - k);
    assert ms[..at] == ps + (sp + ws[..t - k]) && ms[at] == ws[t - k];
    assert ls[..t] == ls[..k] + ls[k..t];
    SigConcat(ls[..k], ls[k..t]);
    SigConcat(ps, sp + ws[..t - k]);
    SigConcat(sp, ws[..t - k]);
    SigOne(sp[0]);
    SameCount(ms, at, TailIndex(ms, true));
  }

  lemma SameCount(ls: seq<Lexeme>, i: nat, j: nat)
    requires i < |ls| && ls[i].kind.Word? && j <= |ls| && (j < |ls| ==> ls[j].kind.Word?)
    requires |Sig(ls[..i])| == |Sig(ls[..j])|
    ensures i == j
  {
    hide Sig;
    if i < j { SigMore(ls, i, j); }
    if j < i { SigMore(ls, j, i); }
  }

  lemma MiddleWidth(query: string, a: string)
    requires UpdateText(query) && InOrder(Tokens(query)) && PlainEnd(a) && WhereText(query) < |query|
             && BodyEnd(query) < |query|
    ensures var ls := Lex(query, 0); var k, t := WhereIndex(ls), TailIndex(ls, true);
            var ps := Lex(Assigned(query, a), 0);
            var ms := Lex(Middle(query, a), 0);
            && k <= t && |ps| + 1 + (t - k) < |ms|
            && Width(ms[..|ps| + 1 + (t - k)]) == |Assigned(query, a)| + 1 + (BodyEnd(query) - WhereText(query))
  {
    hide Cut, Lex, Width, HasSet, WhereIndex, TailIndex, WhereText, BodyEnd, AllClosed, CleanText, OneBlock, InOrder,
         Text.TrimRight, Text.TrimSpace, Middle, Assigned, PlainEnd, UpdateText, Sig, Tokens;
    MiddleLex(query, a);
    TrimmedTail(query);
    var ls, ms, ps := Lex(query, 0), Lex(Middle(query, a), 0), Lex(Assigned(query, a), 0);
    var ws := Lex(Text.TrimSpace(query[WhereText(query)..]), 0);
    var m := TailIndex(ls, true) - WhereIndex(ls);
    var sp := [Lexeme(Space, " ", true)];
    assert ms[..|ps| + 1 + m] == ps + (sp + ws[..m]);
    WidthConcat(ps, sp + ws[..m]);
    WidthConcat(sp, ws[..m]);
    LexWidth(Assigned(query, a), 0);
    WidthOne(sp[0]);
  }

  lemma WidthOne(l: Lexeme)
    ensures Width([l]) == |l.text|
  {
    assert Width([l][1..]) == 0;
  }

  /** The assignment and the rest of the body are closed. */
  lemma AssignedRestClosed(query: string, a: string)
    requires UpdateText(query) && InOrder(Tokens(query)) && PlainEnd(a) && BodyEnds(query)
    ensures AllClosed(Lex(Assigned(query, a) + Led(Rest(query)), 0))
  {
    hide Cut, Lex, WhereText, InOrder, Assigned, PlainEnd, UpdateText, Tokens, BodyEnds, Rest;
    AssignedLex(query, a);
    NoRest(query);
    if WhereText(query) < |query| { RestClosed(query); } else { EmptyTokens(); }
    LedClosed(Rest(query));
    LedJoin(Assigned(query, a), Rest(query));
  }

  lemma NoRest(query: string)
    ensures WhereText(query) == |query| ==> Rest(query) == ""
  {
    hide WhereText, BodyEnd;
  }

  lemma LedJoin(p: string, r: string)
    requires AllClosed(Lex(p, 0)) && AllClosed(Lex(Led(r), 0))
    ensures AllClosed(Lex(p + Led(r), 0)) && Lex(p + Led(r), 0) == Lex(p, 0) + Lex(Led(r), 0)
  {
    hide Cut, Lex;
    LexAppend(p, Led(r));
  }

  /** What the condition is joined to: the assignment and, after it, the rest of the body. */
  lemma MiddleHead(query: string, a: string)
    requires UpdateText(query) && InOrder(Tokens(query)) && PlainEnd(a) && Assignment(Tokens(a)) && BodyEnds(query)
    ensures Text.TrimRight(HeadText(Middle(query, a)), Text.IsBlank) == Assigned(query, a) + Led(Rest(query))
    ensures AllClosed(Lex(Assigned(query, a) + Led(Rest(query)), 0))
  {
    hide *;
    AssignedRestClosed(query, a);
    if WhereText(query) == |query| {
      HeadWithout(query, a);
    } else if BodyEnd(query) == |query| {
      HeadWhole(query, a);
    } else {
      HeadBody(query, a);
    }
  }

  lemma HeadWithout(query: string, a: string)
    requires UpdateText(query) && InOrder(Tokens(query)) && PlainEnd(a) && Assignment(Tokens(a))
             && WhereText(query) == |query|
    ensures Text.TrimRight(HeadText(Middle(query, a)), Text.IsBlank) == Assigned(query, a) + Led(Rest(query))
  {
    hide WhereText, BodyEnd, InOrder, Text.TrimRight, Middle, Assigned, PlainEnd, UpdateText, Tokens, Assignment;
    var p := Assigned(query, a);
    AssignedLast(query, a);
    MiddleWithout(query, a);
    TrimNothing(p, "", Text.IsBlank);
    assert p + "" == p;
  }

  lemma HeadWhole(query: string, a: string)
    requires UpdateText(query) && InOrder(Tokens(query)) && PlainEnd(a) && Assignment(Tokens(a)) && BodyEnds(query)
    requires WhereText(query) < |query| && BodyEnd(query) == |query|
    ensures Text.TrimRight(HeadText(Middle(query, a)), Text.IsBlank) == Assigned(query, a) + Led(Rest(query))
  {
    hide WhereText, BodyEnd, InOrder, Text.TrimRight, Middle, Assigned, PlainEnd, UpdateText, Tokens, Assignment,
         HeadText, Rest, BodyEnds, AllClosed;
    var p, r := Assigned(query, a), Rest(query);
    RestClosed(query);
    MiddleWhole(query, a);
    TrimNothing(p + " " + r, "", Text.IsBlank);
    assert p + " " + r + "" == p + " " + r == p + (" " + r);
  }

  lemma HeadBody(query: string, a: string)
    requires UpdateText(query) && InOrder(Tokens(query)) && PlainEnd(a) && Assignment(Tokens(a)) && BodyEnds(query)
    requires WhereText(query) < |query| && BodyEnd(query) < |query|
    ensures Text.TrimRight(HeadText(Middle(query, a)), Text.IsBlank) == Assigned(query, a) + Led(Rest(query))
  {
    hide WhereText, BodyEnd, InOrder, Text.TrimRight, Middle, Assigned, PlainEnd, UpdateText, Tokens, Assignment,
         BodyEnds, AllClosed, Lex;
    var mid, p, n, e := Middle(query, a), Assigned(query, a), WhereText(query), BodyEnd(query);
    WherePlace(query);
    RestClosed(query);
    MiddleBody(query, a);
    IdentNoSpace(query[n]);
    assert query[n..e][0] == query[n];
    TrimLast(p + " ", query[n..e]);
    TrimTwice(mid[..BodyEnd(mid)], Text.IsBlank);
    var r := Rest(query);
    assert p + " " + r == p + (" " + r);
  }

  lemma TrimLast(a: string, b: string)
    requires b != "" && !Text.IsBlank(b[0])
    ensures Text.TrimRight(a + b, Text.IsBlank) == a + Text.TrimRight(b, Text.IsBlank)
  {
    hide Text.TrimRight;
    assert (a + b)[|a|] == b[0] && (a + b)[|a|..] == b;
    TrimSuffix(a + b, |a|, Text.IsBlank);
    TrimPrefix(a + b, Text.IsBlank);
    var r := Text.TrimRight(a + b, Text.IsBlank);
    assert r == r[..|a|] + r[|a|..] && r[..|a|] == a;
  }

  lemma AssignedLast(query: string, a: string)
    requires PlainEnd(a)
    ensures var p := Assigned(query, a); p != "" && !Text.IsBlank(p[|p| - 1])
  {
    hide Lex, WhereText;
  }

  lemma LedClosed(r: string)
    requires AllClosed(Lex(r, 0))
    ensures AllClosed(Lex(Led(r), 0))
  {
    hide Lex;
    LedLex(r);
  }

  /** Without trailing clauses the middle text is all body. */
  lemma MiddleWhole(query: string, a: string)
    requires UpdateText(query) && InOrder(Tokens(query)) && PlainEnd(a) && Assignment(Tokens(a))
    requires WhereText(query) < |query| && BodyEnd(query) == |query|
    ensures Middle(query, a) == Assigned(query, a) + " " + Rest(query) && HeadText(Middle(query, a)) == Middle(query, a)
  {
    hide Cut, Lex, Width, HasSet, TailIndex, WhereText, AllClosed, CleanText, OneBlock, InOrder, Text.TrimRight,
         Text.TrimSpace, Assigned, PlainEnd, UpdateText, Sig, Tokens, Assignment, BodyEnd;
    WhereSuffixTrimmed(query);
    PlainClosed(a);
    MiddleTail(query, a);
    WholeBody(query);
    AssignedSize(Tokens(query), Tokens(a));
    AllBody(Middle(query, a));
    var p, w := Assigned(query, a), Text.TrimSpace(query[WhereText(query)..]);
    assert p + (" " + w) == p + " " + w;
  }

  lemma WholeBody(query: string)
    requires BodyEnd(query) == |query|
    ensures TailIndex(Tokens(query), true) == |Tokens(query)|
  {
    hide Cut, Lex, Width, TailIndex, Sig, BodyEnd;
    BodyLex(query);
    TailIndexSig(Lex(query, 0));
  }

  /** The middle text is fit for the condition. */
  lemma MiddleSpliceable(query: string, a: string)
    requires UpdateText(query) && InOrder(Tokens(query)) && PlainEnd(a) && Assignment(Tokens(a)) && BodyEnds(query)
    ensures Spliceable(Middle(query, a))
  {
    hide Cut, Lex, Width, HasSet, TailIndex, WhereText, AllClosed, OneBlock, InOrder, HeadText, Text.TrimRight,
         Text.TrimSpace, Assigned, PlainEnd, UpdateText, Sig, Tokens, Assignment, BodyEnds, Middle, CleanText;
    MiddleHead(query, a);
    MiddleClean(query, a);
  }

  lemma MiddleClean(query: string, a: string)
    requires UpdateText(query) && PlainEnd(a)
    ensures CleanText(Middle(query, a))
  {
    hide Cut, Lex, Width, HasSet, TailIndex, WhereText, WhereIndex, OneBlock, Text.TrimRight, Text.TrimSpace, Assigned;
    AssignedLex(query, a);
    if WhereText(query) < |query| {
      UpdateTextSet(query);
      WhereSplit(query);
      WordSuffix(query, WhereText(query), WhereIndex(Lex(query, 0)));
      MiddleLex(query, a);
    } else {
      NothingTrimmed();
      assert query[WhereText(query)..] == "";
      assert Assigned(query, a) + "" == Assigned(query, a);
    }
  }
}
