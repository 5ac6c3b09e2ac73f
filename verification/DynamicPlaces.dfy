/**
 Where the pieces of a rendered text stand: the fragments of a loop between what opens and closes it, the prefix and the
 suffix of a trim node, the words of WHERE and SET. Everything is said of the positions in the rendered text.
 */
module DynamicPlaces {
  import opened Dynamic
  import opened DynamicWords
  import Text

  /** A fragment stands at a position of a text. */
  ghost predicate StandsAt<V>(text: Sql<V>, p: nat, fragment: Sql<V>) {
    p + |fragment| <= |text| && text[p..p + |fragment|] == fragment
  }

  /** A fragment without white space at its ends. */
  ghost predicate Solid<V>(s: Sql<V>) {
    s != [] && !IsBlank(s[0]) && !IsBlank(s[|s| - 1])
  }

  /** Where the k-th of some parts begins, when each is followed by a gap. */
  function Offset<V>(parts: seq<Sql<V>>, gap: nat, k: nat): nat
    requires k <= |parts|
  {
    if k == 0 then 0 else Offset(parts, gap, k - 1) + |parts[k - 1]| + gap
  }

  /** The k-th part stands behind the parts before it, and the gap right before it unless it is the first. */
  ghost predicate Placed<V>(text: Sql<V>, start: nat, parts: seq<Sql<V>>, gap: Sql<V>, k: nat)
    requires k < |parts|
  {
    && StandsAt(text, start + Offset(parts, |gap|, k), parts[k])
    && (k > 0 ==> StandsAt(text, start + Offset(parts, |gap|, k - 1) + |parts[k - 1]|, gap))
  }

  /** The parts stand one after the other from a position on, with a gap between any two, and end there. */
  ghost predicate InOrder<V>(text: Sql<V>, start: nat, parts: seq<Sql<V>>, gap: Sql<V>, end: nat) {
    && parts != []
    && (forall k :: 0 <= k < |parts| ==> Placed(text, start, parts, gap, k))
    && end == start + Offset(parts, |gap|, |parts| - 1) + |parts[|parts| - 1]|
  }

  lemma {:induction false} OffsetShift<V>(parts: seq<Sql<V>>, gap: nat, k: nat)
    requires 0 < k <= |parts|
    ensures Offset(parts, gap, k) == |parts[0]| + gap + Offset(parts[1..], gap, k - 1)
  {
    if k > 1 { OffsetShift(parts, gap, k - 1); }
  }

  lemma StandsShift<V>(before: Sql<V>, text: Sql<V>, p: nat, fragment: Sql<V>)
    requires StandsAt(text, p, fragment)
    ensures StandsAt(before + text, |before| + p, fragment)
  {
    var q := |before| + p;
    assert (before + text)[q..q + |fragment|] == text[p..p + |fragment|];
  }

  lemma StandsBefore<V>(text: Sql<V>, after: Sql<V>, p: nat, fragment: Sql<V>)
    requires StandsAt(text, p, fragment)
    ensures StandsAt(text + after, p, fragment)
  {
    assert (text + after)[p..p + |fragment|] == text[p..p + |fragment|];
  }

  /** Parts in order stay so behind something and before something. */
  lemma InOrderInside<V>(before: Sql<V>, text: Sql<V>, after: Sql<V>, start: nat, parts: seq<Sql<V>>, gap: Sql<V>,
                         end: nat)
    requires InOrder(text, start, parts, gap, end)
    ensures InOrder(before + text + after, |before| + start, parts, gap, |before| + end)
  {
    hide Offset, Placed;
    var all, p := before + text + after, |before| + start;
    forall k | 0 <= k < |parts|
      ensures Placed(all, p, parts, gap, k)
    {
      assert Placed(text, start, parts, gap, k);
      PlacedInside(before, text, after, start, parts, gap, k);
    }
  }

  lemma PlacedInside<V>(before: Sql<V>, text: Sql<V>, after: Sql<V>, start: nat, parts: seq<Sql<V>>, gap: Sql<V>,
                        k: nat)
    requires k < |parts| && Placed(text, start, parts, gap, k)
    ensures Placed(before + text + after, |before| + start, parts, gap, k)
  {
    hide StandsAt, Offset;
    StandsInside(before, text, after, start + Offset(parts, |gap|, k), parts[k]);
    if k > 0 { StandsInside(before, text, after, start + Offset(parts, |gap|, k - 1) + |parts[k - 1]|, gap); }
  }

  lemma StandsInside<V>(before: Sql<V>, text: Sql<V>, after: Sql<V>, p: nat, fragment: Sql<V>)
    requires StandsAt(text, p, fragment)
    ensures StandsAt(before + text + after, |before| + p, fragment)
  {
    StandsShift(before, text, p, fragment);
    StandsBefore(before + text, after, |before| + p, fragment);
  }

  lemma StandsFirst<V>(fragment: Sql<V>, after: Sql<V>)
    ensures StandsAt(fragment + after, 0, fragment)
  {
  }

  /** What `strings.Join` writes. */
  lemma {:induction false} JoinedInOrder<V>(parts: seq<Sql<V>>, separator: string)
    requires parts != []
    ensures var text := JoinedWith(parts, separator); InOrder(text, 0, parts, Chars(separator), |text|)
  {
    var gap: Sql<V> := Chars(separator);
    var text := JoinedWith(parts, separator);
    if |parts| == 1 {
      StandsFirst(parts[0], []);
      assert parts[0] + [] == text;
    } else {
      var rest := JoinedWith(parts[1..], separator);
      JoinedInOrder(parts[1..], separator);
      FirstInOrder(parts, gap, rest);
      assert parts[0] + gap + rest == text;
    }
  }

  /** One more part before parts in order. */
  lemma FirstInOrder<V>(parts: seq<Sql<V>>, gap: Sql<V>, rest: Sql<V>)
    requires |parts| > 1 && InOrder(rest, 0, parts[1..], gap, |rest|)
    ensures var text := parts[0] + gap + rest; InOrder(text, 0, parts, gap, |text|)
  {
    hide Placed, Offset;
    var text := parts[0] + gap + rest;
    PlacedFirst(parts, gap, rest);
    forall k | 0 < k < |parts|
      ensures Placed(text, 0, parts, gap, k)
    {
      assert Placed(rest, 0, parts[1..], gap, k - 1);
      PlacedNext(parts, gap, rest, k);
    }
    OffsetShift(parts, |gap|, |parts| - 1);
  }

  lemma PlacedFirst<V>(parts: seq<Sql<V>>, gap: Sql<V>, rest: Sql<V>)
    requires |parts| > 1
    ensures Placed(parts[0] + gap + rest, 0, parts, gap, 0)
  {
    StandsFirst(parts[0], gap + rest);
    assert parts[0] + (gap + rest) == parts[0] + gap + rest;
  }

  lemma PlacedNext<V>(parts: seq<Sql<V>>, gap: Sql<V>, rest: Sql<V>, k: nat)
    requires 0 < k < |parts| && Placed(rest, 0, parts[1..], gap, k - 1)
    ensures Placed(parts[0] + gap + rest, 0, parts, gap, k)
  {
    hide StandsAt, Offset;
    var front := parts[0] + gap;
    OffsetShift(parts, |gap|, k);
    StandsShift(front, rest, Offset(parts[1..], |gap|, k - 1), parts[k]);
    if k > 1 {
      OffsetShift(parts, |gap|, k - 1);
      StandsShift(front, rest, Offset(parts[1..], |gap|, k - 2) + |parts[k - 1]|, gap);
    } else {
      FirstOffset(parts, |gap|);
      GapStands(parts[0], gap, rest);
    }
  }

  lemma FirstOffset<V>(parts: seq<Sql<V>>, gap: nat)
    ensures Offset(parts, gap, 0) == 0
  {
  }

  lemma GapStands<V>(first: Sql<V>, gap: Sql<V>, rest: Sql<V>)
    ensures StandsAt(first + gap + rest, |first|, gap)
  {
  }

  // ---- white space at the ends ----

  lemma {:induction false} TrimRightSolid<V>(s: Sql<V>)
    ensures TrimRight(s) != [] ==> !IsBlank(TrimRight(s)[|TrimRight(s)| - 1])
    ensures TrimRight(s) <= s
  {
    if s != [] && IsBlank(s[|s| - 1]) { TrimRightSolid(s[..|s| - 1]); }
  }

  lemma TrimSolid<V>(s: Sql<V>)
    ensures Trim(s) == [] || Solid(Trim(s))
  {
    TrimLeftFront(s);
    TrimRightSolid(TrimLeft(s));
  }

  lemma {:induction false} JoinedSolid<V>(parts: seq<Sql<V>>)
    ensures Joined(parts) == [] || Solid(Joined(parts))
  {
    hide Trim;
    if parts != [] {
      JoinedSolid(parts[1..]);
      TrimSolid(parts[0]);
    }
  }

  lemma {:induction false} TrimLeftBefore<V>(a: Sql<V>, b: Sql<V>)
    requires b != [] && !IsBlank(b[0])
    ensures TrimLeft(a + b) == TrimLeft(a) + b
  {
    if a == [] {
      assert a + b == b;
    } else {
      assert (a + b)[1..] == a[1..] + b;
      TrimLeftBefore(a[1..], b);
    }
  }

  lemma {:induction false} TrimRightAfter<V>(a: Sql<V>, b: Sql<V>)
    requires a != [] && !IsBlank(a[|a| - 1])
    ensures TrimRight(a + b) == a + TrimRight(b)
  {
    if b == [] {
      assert a + b == a;
    } else {
      assert (a + b)[..|a + b| - 1] == a + b[..|b| - 1];
      TrimRightAfter(a, b[..|b| - 1]);
    }
  }

  /** Trimming around a solid middle. */
  lemma TrimAround<V>(a: Sql<V>, middle: Sql<V>, b: Sql<V>)
    requires Solid(middle)
    ensures Trim(a + middle + b) == TrimLeft(a) + middle + TrimRight(b)
  {
    assert a + middle + b == a + (middle + b);
    TrimLeftBefore(a, middle + b);
    assert TrimLeft(a) + (middle + b) == TrimLeft(a) + middle + b;
    TrimRightAfter(TrimLeft(a) + middle, b);
  }

  // ---- loops ----

  /** The fragments of the iterations are not empty and have no white space at their ends. */
  lemma {:induction false} FragmentsSolid<V, E>(w: World<V>, children: seq<Node<V, E>>, item: string, index: string,
                                                items: seq<V>, i: nat, c: Context<V>)
    requires i <= |items|
    ensures var r := RenderItems(w, children, item, index, items, i, c).0; r.Ok? ==> forall f <- r.value :: Solid(f)
    decreases |items| - i
  {
    hide RenderChildren, Solid, Entered, Left;
    if i < |items| {
      var inner := Entered(c, item, items[i]);
      var scope := if index == "" then inner else Entered(inner, index, w.ofIndex(i));
      var (r, d) := RenderChildren(w, children, scope);
      ChildrenSolid(w, children, scope);
      if r.Ok? { FragmentsSolid(w, children, item, index, items, i + 1, Left(d, c, item, index)); }
    }
  }

  lemma ChildrenSolid<V, E>(w: World<V>, children: seq<Node<V, E>>, c: Context<V>)
    ensures var r := RenderChildren(w, children, c).0; r.Ok? && r.value != [] ==> Solid(r.value)
  {
    hide RenderNodes, Joined, Solid;
    var r := RenderNodes(w, children, c).0;
    if r.Ok? { JoinedSolid(r.value); }
  }

  lemma JoinedWithSolid<V>(parts: seq<Sql<V>>, separator: string)
    requires parts != [] && forall f <- parts :: Solid(f)
    ensures Solid(JoinedWith(parts, separator))
  {
    var text := JoinedWith(parts, separator);
    JoinedInOrder(parts, separator);
    var n, gap := |parts|, |Chars<V>(separator)|;
    var first, last := parts[0], parts[n - 1];
    assert Solid(first) && Solid(last);
    assert Placed(text, 0, parts, Chars(separator), 0) && Placed(text, 0, parts, Chars(separator), n - 1);
    assert text[0] == text[0..|first|][0];
    assert text[|text| - 1] == text[|text| - |last|..|text|][|last| - 1];
  }

  /** A loop with fragments: what opens it, the fragments in order with the trimmed separator and a space between them,
   and what closes it. */
  ghost predicate Enclosed<V>(text: Sql<V>, open: string, close: string, separator: string, parts: seq<Sql<V>>) {
    var first: Sql<V>, last: Sql<V> := TrimLeft(Chars(open)), TrimRight(Chars(close));
    && |first| + |last| <= |text|
    && text[..|first|] == first && text[|text| - |last|..] == last
    && InOrder(text, |first|, parts, Chars(Text.TrimSpace(separator)) + [Ch(' ')], |text| - |last|)
  }

  lemma GapIs<V>(separator: string)
    ensures Chars<V>(Separator(separator)) == Chars(Text.TrimSpace(separator)) + [Ch(' ')]
  {
    hide Text.TrimSpace;
  }

  lemma LoopedEnclosed<V>(parts: seq<Sql<V>>, open: string, close: string, separator: string)
    requires parts != [] && forall f <- parts :: Solid(f)
    ensures Enclosed(Looped(parts, open, close, separator), open, close, separator, parts)
  {
    hide JoinedWith, Separator, Text.TrimSpace, Solid, InOrder;
    var first: Sql<V>, last: Sql<V> := TrimLeft(Chars(open)), TrimRight(Chars(close));
    var middle := JoinedWith(parts, Separator(separator));
    GapIs<V>(separator);
    JoinedInOrder(parts, Separator(separator));
    JoinedWithSolid(parts, Separator(separator));
    TrimAround(Chars(open), middle, Chars(close));
    InOrderInside(first, middle, last, 0, parts, Chars(Separator(separator)), |middle|);
  }

  /**
   What a loop over a list is rendered as: nothing when no iteration leaves a fragment, else the fragments of the
   iterations in order, enclosed.
   */
  lemma LoopEnclosed<V, E>(w: World<V>, node: Node<V, E>, c: Context<V>, items: seq<V>)
    requires node.Foreach? && (node.collection.root != "" || node.collection.tail != "")
    requires Lookup(w, c, node.collection).Some?
    requires w.elements(Lookup(w, c, node.collection).value) == Items(items)
    requires Render(w, node, c).0.Ok?
    ensures var item := if Text.TrimSpace(node.item) == "" then "item" else Text.TrimSpace(node.item);
            var parts := RenderItems(w, node.children, item, Text.TrimSpace(node.index), items, 0, c).0;
            var text := Render(w, node, c).0.value;
            && parts.Ok?
            && if parts.value == [] then text == []
               else Enclosed(text, node.open, node.close, node.separator, parts.value)
  {
    hide RenderItems, Lookup, Looped, Enclosed, Text.TrimSpace;
    var item, index := ItemName(node.item), Text.TrimSpace(node.index);
    var parts := RenderItems(w, node.children, item, index, items, 0, c).0;
    FragmentsSolid(w, node.children, item, index, items, 0, c);
    NoFragments<V>(node.open, node.close, node.separator);
    if parts.Ok? && parts.value != [] { LoopedEnclosed(parts.value, node.open, node.close, node.separator); }
  }

  lemma NoFragments<V>(open: string, close: string, separator: string)
    ensures Looped<V>([], open, close, separator) == []
  {
  }

  /** The fragments of a loop, one item after the other: each is what the children leave with the item bound. */
  lemma FragmentOfItem<V, E>(w: World<V>, children: seq<Node<V, E>>, item: string, index: string, items: seq<V>, i: nat,
                             c: Context<V>)
    requires i < |items| && RenderItems(w, children, item, index, items, i, c).0.Ok?
    ensures var alias, again := Alias(item, c.next), Alias(index, c.next + 1);
            var inner := Context(c.args[alias := items[i]], c.aliases[item := alias], c.values[item := items[i]],
                                 c.next + 1);
            var number := w.ofIndex(i);
            var scope := if index == "" then inner
                         else Context(inner.args[again := number], inner.aliases[index := again],
                                      inner.values[index := number], c.next + 2);
            var (r, d) := RenderChildren(w, children, scope);
            var rest := RenderItems(w, children, item, index, items, i + 1, Left(d, c, item, index)).0;
            && r.Ok? && rest.Ok?
            && RenderItems(w, children, item, index, items, i, c).0.value
               == if r.value == [] then rest.value else [r.value] + rest.value
  {
    hide RenderChildren, Alias, Left;
  }

  // ---- children ----

  /** The fragments that are not blank, trimmed. */
  ghost function NotBlank<V>(fragments: seq<Sql<V>>): seq<Sql<V>> {
    if fragments == [] then []
    else (if Trim(fragments[0]) == [] then [] else [Trim(fragments[0])]) + NotBlank(fragments[1..])
  }

  lemma {:induction false} JoinedIs<V>(fragments: seq<Sql<V>>)
    ensures NotBlank(fragments) == [] <==> Joined(fragments) == []
    ensures Joined(fragments) == JoinedWith(NotBlank(fragments), " ")
  {
    hide Trim;
    if fragments != [] {
      JoinedIs(fragments[1..]);
      var first, rest := Trim(fragments[0]), NotBlank(fragments[1..]);
      assert Chars<V>(" ") == [Ch(' ')];
      if first == [] {
        assert [] + rest == rest;
      } else {
        assert ([first] + rest)[1..] == rest;
        assert rest == [] ==> [first] + rest == [first];
      }
    }
  }

  /** Fragments that are joined stand in order with one space between them. */
  lemma JoinedPlaces<V>(fragments: seq<Sql<V>>)
    ensures var text, parts := Joined(fragments), NotBlank(fragments);
            if parts == [] then text == [] else InOrder(text, 0, parts, [Ch(' ')], |text|)
  {
    hide Joined, JoinedWith, NotBlank, InOrder;
    JoinedIs(fragments);
    assert Chars<V>(" ") == [Ch(' ')];
    if NotBlank(fragments) != [] { JoinedInOrder(NotBlank(fragments), " "); }
  }

  // ---- WHERE and SET ----

  lemma WordBefore<V>(word: string, content: Sql<V>)
    requires content != []
    ensures var text := Prefixed(word, content);
            && |text| == |word| + 1 + |content| && text[..|word|] == Chars(word) && text[|word|] == Ch(' ')
            && text[|word| + 1..] == content
  {
  }

  /** A WHERE or SET node with content is its word, one space and the content. */
  lemma KeywordBefore<V, E>(w: World<V>, node: Node<V, E>, c: Context<V>)
    requires (node.Where? || node.SetNode?) && Render(w, node, c).0.Ok? && Render(w, node, c).0.value != []
    ensures var text := Render(w, node, c).0.value; var word := if node.Where? then "WHERE" else "SET";
            && |word| < |text| && text[..|word|] == Chars(word) && text[|word|] == Ch(' ')
  {
    hide RenderChildren, RemovePrefix, RemoveSuffix, Trim;
    var r := RenderChildren(w, node.children, c).0;
    var kept := if node.Where? then RemovePrefix(Trim(r.value), ["AND", "OR"]) else RemoveSuffix(Trim(r.value), [","]);
    WordBefore(if node.Where? then "WHERE" else "SET", kept);
  }

  // ---- trim nodes ----

  /** A text around another one: what is not blank, with one space between them. */
  ghost predicate Around<V>(text: Sql<V>, prefix: string, content: Sql<V>, suffix: string) {
    var before, after := Text.TrimSpace(prefix), Text.TrimSpace(suffix);
    var start := if before == "" then 0 else |before| + 1;
    var end := start + |content|;
    && |text| == end + (if after == "" then 0 else 1 + |after|)
    && text[start..end] == content
    && (before != "" ==> text[..|before|] == Chars(before) && text[|before|] == Ch(' '))
    && (after != "" ==> text[end] == Ch(' ') && text[end + 1..] == Chars(after))
  }

  lemma TrimTrimmed<V>(s: Sql<V>)
    requires s == [] || Solid(s)
    ensures Trim(s) == s
  {
  }

  /** A trimmed text has no white space at its ends. */
  lemma CharsSolid<V>(s: string)
    ensures var t: Sql<V> := Chars(Text.TrimSpace(s)); (t == [] <==> Text.TrimSpace(s) == "") && (t == [] || Solid(t))
  {
    var l := Text.TrimLeft(s, Text.IsSpace);
    var t := Text.TrimRight(l, Text.IsSpace);
    if t != "" { assert t[0] == l[0]; }
  }

  lemma ThreeJoined<V>(a: Sql<V>, b: Sql<V>, c: Sql<V>)
    requires Solid(b) && (a == [] || Solid(a)) && (c == [] || Solid(c))
    ensures Joined([a, b, c])
         == (if a == [] then [] else a + [Ch(' ')]) + b + (if c == [] then [] else [Ch(' ')] + c)
  {
    hide Trim;
    TrimTrimmed(a);
    TrimTrimmed(b);
    TrimTrimmed(c);
    assert [a, b, c][1..] == [b, c] && [b, c][1..] == [c] && [c][1..] == [];
    assert Joined([c]) == c;
    assert Joined([b, c]) == if c == [] then b else b + [Ch(' ')] + c;
    assert a + [Ch(' ')] + (b + [Ch(' ')] + c) == a + [Ch(' ')] + b + ([Ch(' ')] + c);
    assert b + [Ch(' ')] + c == b + ([Ch(' ')] + c);
  }

  /** What a trim node puts around its content: nothing when there is none. */
  lemma TrimAroundContent<V, E>(w: World<V>, node: Node<V, E>, c: Context<V>)
    requires node.TrimNode? && Render(w, node, c).0.Ok?
    ensures var r := RenderChildren(w, node.children, c).0; var text := Render(w, node, c).0.value;
            && r.Ok?
            && var content := RemoveSuffix(RemovePrefix(r.value, node.prefixes), node.suffixes);
               if content == [] then text == [] else Around(text, node.prefix, content, node.suffix)
  {
    hide RenderChildren, RemovePrefix, RemoveSuffix, Text.TrimSpace, Joined, Trim, Around;
    var r := RenderChildren(w, node.children, c).0;
    if r.Ok? {
      ChildrenSolid(w, node.children, c);
      TrimTrimmed(r.value);
      PrefixSolid(r.value, node.prefixes);
      TrimTrimmed(RemovePrefix(r.value, node.prefixes));
      var content := RemoveSuffix(RemovePrefix(r.value, node.prefixes), node.suffixes);
      SuffixSolid(RemovePrefix(r.value, node.prefixes), node.suffixes);
      NothingKept<V>(node.prefixes, node.suffixes);
      if content != [] { JoinedAround(node.prefix, content, node.suffix); }
    }
  }

  lemma JoinedAround<V>(prefix: string, content: Sql<V>, suffix: string)
    requires Solid(content)
    ensures Around(Joined([Chars(Text.TrimSpace(prefix)), content, Chars(Text.TrimSpace(suffix))]), prefix, content,
                   suffix)
  {
    hide Text.TrimSpace, Joined, Solid;
    CharsSolid<V>(prefix);
    CharsSolid<V>(suffix);
    ThreeJoined(Chars(Text.TrimSpace(prefix)), content, Chars(Text.TrimSpace(suffix)));
  }

  lemma {:induction false} PrefixSolid<V>(s: Sql<V>, words: seq<string>)
    requires s == [] || Solid(s)
    ensures RemovePrefix(s, words) == [] || Solid(RemovePrefix(s, words))
  {
    hide Trim, Text.TrimSpace, StartsWith, Solid;
    if words != [] {
      var w := Text.TrimSpace(words[0]);
      if |w| <= |s| { TrimSolid(s[|w|..]); }
      PrefixSolid(s, words[1..]);
    }
  }

  lemma {:induction false} SuffixSolid<V>(s: Sql<V>, words: seq<string>)
    requires s == [] || Solid(s)
    ensures RemoveSuffix(s, words) == [] || Solid(RemoveSuffix(s, words))
  {
    hide Trim, Text.TrimSpace, StartsWith, Solid;
    if words != [] {
      var w := Text.TrimSpace(words[0]);
      if |w| <= |s| { TrimSolid(s[..|s| - |w|]); }
      SuffixSolid(s, words[1..]);
    }
  }

  lemma {:induction false} NothingKept<V>(prefixes: seq<string>, suffixes: seq<string>)
    ensures RemovePrefix<V>([], prefixes) == [] && RemoveSuffix<V>([], suffixes) == []
    decreases |prefixes| + |suffixes|
  {
    hide Text.TrimSpace;
    if prefixes != [] { NothingKept<V>(prefixes[1..], suffixes); }
    if suffixes != [] { NothingKept<V>(prefixes, suffixes[1..]); }
  }

  // ---- overrides ----

  /** A word of a list that is not blank, and stands at the beginning with a space or nothing after it. */
  ghost predicate Opens<V>(s: Sql<V>, word: string) {
    var w := Text.TrimSpace(word);
    w != "" && WordAt(s, 0, w) && (|s| == |w| || s[|w|] == Ch(' '))
  }

  /** A word of a list that is not blank, and stands at the end. */
  predicate Closes<V>(s: Sql<V>, word: string) {
    var w := Text.TrimSpace(word);
    w != "" && |w| <= |s| && WordAt(s, |s| - |w|, w)
  }

  /** The first word of a list that opens a text is removed, with the white space after it; or nothing is. */
  lemma {:induction false} FirstOpening<V>(s: Sql<V>, words: seq<string>, k: nat)
    requires k <= |words| && (forall j :: 0 <= j < k ==> !Opens(s, words[j])) && (k < |words| ==> Opens(s, words[k]))
    ensures RemovePrefix(s, words) == if k == |words| then s else Trim(s[|Text.TrimSpace(words[k])|..])
  {
    hide Text.TrimSpace, Trim, StartsWith, WordAt;
    if words != [] {
      assert s[0..] == s;
      WordAtStarts(s, 0, Text.TrimSpace(words[0]));
      if k == 0 {
        OpeningRemoved(s, words);
      } else {
        NotOpening(s, words);
        FirstOpening(s, words[1..], k - 1);
      }
    }
  }

  lemma OpeningRemoved<V>(s: Sql<V>, words: seq<string>)
    requires words != []
    requires var w := Text.TrimSpace(words[0]); w != "" && StartsWith(s, w) && (|s| == |w| || s[|w|] == Ch(' '))
    ensures RemovePrefix(s, words) == Trim(s[|Text.TrimSpace(words[0])|..])
  {
    hide Text.TrimSpace, Trim;
    NothingTrimmed<V>();
    var w := Text.TrimSpace(words[0]);
    assert StartsWith(s, w);
    if |s| == |w| { assert s[|w|..] == []; }
  }

  lemma NotOpening<V>(s: Sql<V>, words: seq<string>)
    requires words != []
    requires var w := Text.TrimSpace(words[0]); !(w != "" && StartsWith(s, w) && (|s| == |w| || s[|w|] == Ch(' ')))
    ensures RemovePrefix(s, words) == RemovePrefix(s, words[1..])
  {
    hide Text.TrimSpace, Trim;
  }

  /** The first word of a list that closes a text is removed, with the white space before it; or nothing is. */
  lemma {:induction false} FirstClosing<V>(s: Sql<V>, words: seq<string>, k: nat)
    requires k <= |words| && (forall j :: 0 <= j < k ==> !Closes(s, words[j])) && (k < |words| ==> Closes(s, words[k]))
    ensures RemoveSuffix(s, words) == if k == |words| then s else Trim(s[..|s| - |Text.TrimSpace(words[k])|])
  {
    hide Text.TrimSpace, Trim, StartsWith, WordAt;
    if words != [] {
      var w := Text.TrimSpace(words[0]);
      if |w| <= |s| { WordAtStarts(s, |s| - |w|, w); }
      if k > 0 { FirstClosing(s, words[1..], k - 1); }
    }
  }
}
