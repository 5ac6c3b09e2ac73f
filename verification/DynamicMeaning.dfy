/**
 What a rendering means: rendered fragments, with their arguments put in, against rendering each iteration directly with
 its own element and index.
 */
module DynamicMeaning {
  import opened Dynamic
  import opened Prelude
  import Text

  // ---- rendering without aliases ----

  /** The value of a name: a loop variable, an argument, or a part of one. */
  function DirectLookup<V>(w: World<V>, args: Values<V>, loops: Values<V>, p: Path): Option<V> {
    var full := p.root + p.tail;
    if full in loops then Some(loops[full])
    else if full in args then Some(args[full])
    else if Walked(w, loops, p).Some? then Walked(w, loops, p)
    else Walked(w, args, p)
  }

  function DirectLookups<V>(w: World<V>, args: Values<V>, loops: Values<V>, names: seq<Path>): seq<Option<V>> {
    if names == [] then [] else [DirectLookup(w, args, loops, names[0])] + DirectLookups(w, args, loops, names[1..])
  }

  /** How a placeholder is looked up among the arguments: the whole name, else the root and the path after it. */
  function Argument<V>(w: World<V>, args: Values<V>, p: Path): Option<V> {
    var full := p.root + p.tail;
    if full in args then Some(args[full]) else Walked(w, args, p)
  }

  /** The values of loop variables, and those that local names have now, in the places of their placeholders. */
  function Filled<V>(w: World<V>, s: Sql<V>, args: Values<V>, loops: Values<V>, local: set<string>): (r: Sql<V>)
    ensures |r| == |s|
  {
    seq(|s|, i requires 0 <= i < |s| => FilledSym(w, s[i], args, loops, local))
  }

  function FilledSym<V>(w: World<V>, x: Sym<V>, args: Values<V>, loops: Values<V>, local: set<string>): Sym<V> {
    if !x.Ph? then x
    else if x.root in loops then Val(Walked(w, loops, Path(x.root, x.tail)))
    else if x.root in local then Val(Argument(w, args, Path(x.root, x.tail)))
    else x
  }

  /** The names that are bound somewhere in a node. */
  function Binds<V, E>(node: Node<V, E>): set<string>
    decreases node, 0
  {
    match node
    case TextNode(_) => {}
    case Include(_) => {}
    case Bind(name, _, _) => {Text.TrimSpace(name)}
    case _ => BindsIn(node.children)
  }

  function BindsIn<V, E>(nodes: seq<Node<V, E>>): set<string>
    decreases nodes, 1
  {
    if nodes == [] then {} else Binds(nodes[0]) + BindsIn(nodes[1..])
  }

  /**
   The text of a node and the arguments after it; only binds change those. A name that is bound inside a loop is local
   to the texts of that loop: each of them has the value of the name when it is written.
   */
  type Written<V, E> = (Result<Sql<V>, Error<E>>, Values<V>)

  function Direct<V, E>(w: World<V>, node: Node<V, E>, args: Values<V>, loops: Values<V>, local: set<string>)
    : Written<V, E>
    decreases node, 1
  {
    match node
    case TextNode(text) => (Ok(Filled(w, Normalized(text), args, loops, local)), args)
    case If(test, children) =>
      (match test.decide(DirectLookups(w, args, loops, test.names))
       case Err(e) => (Err(Evaluation(e)), args)
       case Ok(yes) => if yes then DirectChildren(w, children, args, loops, local) else (Ok([]), args))
    case Where(children) =>
      var (r, a) := DirectChildren(w, children, args, loops, local);
      (if r.Err? then r else Ok(Prefixed("WHERE", RemovePrefix(Trim(r.value), ["AND", "OR"]))), a)
    case SetNode(children) =>
      var (r, a) := DirectChildren(w, children, args, loops, local);
      (if r.Err? then r else Ok(Prefixed("SET", RemoveSuffix(Trim(r.value), [","]))), a)
    case TrimNode(prefix, suffix, prefixes, suffixes, children) =>
      var (r, a) := DirectChildren(w, children, args, loops, local);
      (if r.Err? then r else Ok(Trimmed(prefix, suffix, prefixes, suffixes, r.value)), a)
    case Foreach(collection, item, index, open, close, separator, nullable, children) =>
      if collection.root == "" && collection.tail == "" then (Err(CollectionRequired), args)
      else
        var found := DirectLookup(w, args, loops, collection);
        var kind := if found.None? then NilValue else w.elements(found.value);
        (match kind
         case NilValue =>
           (if (if nullable.Some? then nullable.value else w.nullable) then Ok([]) else Err(CollectionNil), args)
         case OtherKind => (Err(CollectionKind), args)
         case Items(items) =>
           var (r, a) := DirectItems(w, children, ItemName(item), Text.TrimSpace(index), items, 0, args, loops,
                                       local + BindsIn(children));
           (match r case Err(e) => Err(e) case Ok(parts) => Ok(Looped(parts, open, close, separator)), a))
    case Choose(children) =>
      (match DirectChosen(w, children, 0, None, args, loops)
       case Err(e) => (Err(e), args)
       case Ok(None) => (Ok([]), args)
       case Ok(Some(k)) => DirectChildren(w, children[k].children, args, loops, local))
    case When(_, children) => DirectChildren(w, children, args, loops, local)
    case Otherwise(children) => DirectChildren(w, children, args, loops, local)
    case Include(_) => (Err(NotExpanded), args)
    case Bind(name, raw, value) =>
      var n := Text.TrimSpace(name);
      if n == "" then (Err(BindNameRequired), args)
      else if !ValidIdentifier(n) then (Err(BindNameInvalid), args)
      else if raw then (Err(BindRaw), args)
      else
        match value.decide(DirectLookups(w, args, loops, value.names))
        case Err(e) => (Err(Evaluation(e)), args)
        case Ok(v) => (Ok([]), args[n := v])
  }

  function DirectChildren<V, E>(w: World<V>, nodes: seq<Node<V, E>>, args: Values<V>, loops: Values<V>,
                                local: set<string>): Written<V, E>
    decreases nodes, 2
  {
    var (r, a) := DirectNodes(w, nodes, args, loops, local);
    (match r case Err(e) => Err(e) case Ok(parts) => Ok(Joined(parts)), a)
  }

  function DirectNodes<V, E>(w: World<V>, nodes: seq<Node<V, E>>, args: Values<V>, loops: Values<V>, local: set<string>)
    : (Result<seq<Sql<V>>, Error<E>>, Values<V>)
    decreases nodes, 1
  {
    if nodes == [] then (Ok([]), args)
    else
      var (r, a) := Direct(w, nodes[0], args, loops, local);
      match r
      case Err(e) => (Err(e), a)
      case Ok(first) =>
        var (rest, b) := DirectNodes(w, nodes[1..], a, loops, local);
        (match rest case Err(e) => Err(e) case Ok(parts) => Ok((if first == [] then [] else [first]) + parts), b)
  }

  /** Each iteration has its own element and index. */
  function DirectItems<V, E>(w: World<V>, children: seq<Node<V, E>>, item: string, index: string, items: seq<V>, i: nat,
                             args: Values<V>, loops: Values<V>, local: set<string>)
    : (Result<seq<Sql<V>>, Error<E>>, Values<V>)
    requires i <= |items|
    decreases children, 3, |items| - i
  {
    if i == |items| then (Ok([]), args)
    else
      var (r, a) := DirectChildren(w, children, args, Scope(w, loops, item, index, items[i], i), local);
      match r
      case Err(e) => (Err(e), a)
      case Ok(first) =>
        var (rest, b) := DirectItems(w, children, item, index, items, i + 1, a, loops, local);
        (match rest case Err(e) => Err(e) case Ok(parts) => Ok((if first == [] then [] else [first]) + parts), b)
  }

  function Scope<V>(w: World<V>, loops: Values<V>, item: string, index: string, value: V, i: nat): Values<V> {
    if index == "" then loops[item := value] else loops[item := value][index := w.ofIndex(i)]
  }

  function DirectChosen<V, E>(w: World<V>, branches: seq<Node<V, E>>, i: nat, otherwise: Option<nat>, args: Values<V>,
                              loops: Values<V>)
    : (r: Result<Option<nat>, Error<E>>)
    requires i <= |branches| && (otherwise.Some? ==> otherwise.value < i && branches[otherwise.value].Otherwise?)
    ensures r.Ok? && r.value.Some? ==>
              r.value.value < |branches| && (branches[r.value.value].When? || branches[r.value.value].Otherwise?)
    decreases |branches| - i
  {
    if i == |branches| then Ok(otherwise)
    else
      match branches[i]
      case When(test, _) =>
        (match test.decide(DirectLookups(w, args, loops, test.names))
         case Err(e) => Err(Evaluation(e))
         case Ok(yes) => if yes then Ok(Some(i)) else DirectChosen(w, branches, i + 1, otherwise, args, loops))
      case Otherwise(_) => DirectChosen(w, branches, i + 1, Some(i), args, loops)
      case _ => Err(ChooseKind)
  }

  // ---- putting arguments in ----

  predicate Reserved(name: string) {
    PREFIX <= name
  }

  /** Aliases replaced by their arguments; other placeholders stay. */
  function Resolved<V>(w: World<V>, s: Sql<V>, args: Values<V>): (r: Sql<V>)
    ensures |r| == |s|
  {
    seq(|s|, i requires 0 <= i < |s| => ResolvedSym(w, s[i], args))
  }

  function ResolvedSym<V>(w: World<V>, x: Sym<V>, args: Values<V>): Sym<V> {
    if x.Ph? && Reserved(x.root) then Val(Walked(w, args, Path(x.root, x.tail))) else x
  }

  lemma ResolvedChar<V>(w: World<V>, x: Sym<V>, args: Values<V>)
    ensures ResolvedSym(w, x, args).Ch? <==> x.Ch?
    ensures x.Ch? ==> ResolvedSym(w, x, args) == x
  {
  }

  lemma ResolvedConcat<V>(w: World<V>, a: Sql<V>, b: Sql<V>, args: Values<V>)
    ensures Resolved(w, a + b, args) == Resolved(w, a, args) + Resolved(w, b, args)
  {
  }

  lemma ResolvedSlices<V>(w: World<V>, s: Sql<V>, n: nat, args: Values<V>)
    requires n <= |s|
    ensures Resolved(w, s, args)[n..] == Resolved(w, s[n..], args)
            && Resolved(w, s, args)[..n] == Resolved(w, s[..n], args)
  {
  }

  lemma ResolvedChars<V>(w: World<V>, s: string, args: Values<V>)
    ensures Resolved(w, Chars(s), args) == Chars(s)
  {
  }

  lemma {:induction false} ResolvedTrimLeft<V>(w: World<V>, s: Sql<V>, args: Values<V>)
    ensures TrimLeft(Resolved(w, s, args)) == Resolved(w, TrimLeft(s), args)
  {
    if s != [] {
      ResolvedChar(w, s[0], args);
      if IsBlank(s[0]) {
        ResolvedTrimLeft(w, s[1..], args);
        assert Resolved(w, s, args)[1..] == Resolved(w, s[1..], args);
      }
    }
  }

  lemma {:induction false} ResolvedTrimRight<V>(w: World<V>, s: Sql<V>, args: Values<V>)
    ensures TrimRight(Resolved(w, s, args)) == Resolved(w, TrimRight(s), args)
  {
    if s != [] {
      var n := |s| - 1;
      ResolvedChar(w, s[n], args);
      if IsBlank(s[n]) {
        ResolvedTrimRight(w, s[..n], args);
        assert Resolved(w, s, args)[..n] == Resolved(w, s[..n], args);
      }
    }
  }

  lemma ResolvedTrim<V>(w: World<V>, s: Sql<V>, args: Values<V>)
    ensures Trim(Resolved(w, s, args)) == Resolved(w, Trim(s), args)
  {
    ResolvedTrimLeft(w, s, args);
    ResolvedTrimRight(w, TrimLeft(s), args);
  }

  function ResolvedAll<V>(w: World<V>, parts: seq<Sql<V>>, args: Values<V>): (r: seq<Sql<V>>)
    ensures |r| == |parts|
  {
    if parts == [] then [] else [Resolved(w, parts[0], args)] + ResolvedAll(w, parts[1..], args)
  }

  lemma {:induction false} ResolvedJoined<V>(w: World<V>, parts: seq<Sql<V>>, args: Values<V>)
    ensures Joined(ResolvedAll(w, parts, args)) == Resolved(w, Joined(parts), args)
  {
    if parts != [] {
      hide Trim, Resolved;
      var first, rest := Trim(parts[0]), Joined(parts[1..]);
      ResolvedTrim(w, parts[0], args);
      ResolvedJoined(w, parts[1..], args);
      assert ResolvedAll(w, parts, args)[1..] == ResolvedAll(w, parts[1..], args);
      ResolvedSpace(w, args);
      ResolvedConcat(w, first + [Ch(' ')], rest, args);
      ResolvedConcat(w, first, [Ch(' ')], args);
    }
  }

  lemma ResolvedSpace<V>(w: World<V>, args: Values<V>)
    ensures Resolved(w, [Ch(' ')], args) == [Ch(' ')] && Resolved(w, [], args) == []
  {
  }

  lemma {:induction false} ResolvedJoinedWith<V>(w: World<V>, parts: seq<Sql<V>>, separator: string, args: Values<V>)
    ensures JoinedWith(ResolvedAll(w, parts, args), separator) == Resolved(w, JoinedWith(parts, separator), args)
  {
    hide Resolved;
    ResolvedSpace(w, args);
    if |parts| > 1 {
      ResolvedJoinedWith(w, parts[1..], separator, args);
      assert ResolvedAll(w, parts, args)[1..] == ResolvedAll(w, parts[1..], args);
      ResolvedChars(w, separator, args);
      ResolvedConcat(w, parts[0] + Chars(separator), JoinedWith(parts[1..], separator), args);
      ResolvedConcat(w, parts[0], Chars(separator), args);
    }
  }

  lemma ResolvedStarts<V>(w: World<V>, s: Sql<V>, word: string, args: Values<V>)
    ensures StartsWith(Resolved(w, s, args), word) <==> StartsWith(s, word)
  {
    forall i | 0 <= i < |s|
      ensures Resolved(w, s, args)[i].Ch? <==> s[i].Ch?
      ensures s[i].Ch? ==> Resolved(w, s, args)[i] == s[i]
    {
      ResolvedChar(w, s[i], args);
    }
  }

  /** How prefixes and suffixes are removed, one word at a time. */
  lemma PrefixIs<V>(s: Sql<V>, words: seq<string>)
    ensures RemovePrefix(s, words)
            == if words == [] then s
               else
                 var v := Text.TrimSpace(words[0]);
                 if v != "" && StartsWith(s, v) && |s| == |v| then []
                 else if v != "" && StartsWith(s, v) && |s| > |v| && s[|v|] == Ch(' ') then Trim(s[|v|..])
                 else RemovePrefix(s, words[1..])
  {
    hide StartsWith, Text.TrimSpace, Trim;
  }

  lemma SuffixIs<V>(s: Sql<V>, words: seq<string>)
    ensures RemoveSuffix(s, words)
            == if words == [] then s
               else
                 var v := Text.TrimSpace(words[0]);
                 if v != "" && |v| <= |s| && StartsWith(s[|s| - |v|..], v) then Trim(s[..|s| - |v|])
                 else RemoveSuffix(s, words[1..])
  {
    hide StartsWith, Text.TrimSpace, Trim;
  }

  lemma {:induction false} ResolvedPrefix<V>(w: World<V>, s: Sql<V>, words: seq<string>, args: Values<V>)
    ensures RemovePrefix(Resolved(w, s, args), words) == Resolved(w, RemovePrefix(s, words), args)
  {
    hide *;
    PrefixIs(s, words);
    PrefixIs(Resolved(w, s, args), words);
    if words != [] {
      var v := Text.TrimSpace(words[0]);
      ResolvedSpace(w, args);
      ResolvedStarts(w, s, v, args);
      ResolvedPrefix(w, s, words[1..], args);
      if |s| > |v| {
        ResolvedAt(w, s, |v|, args);
        ResolvedTrim(w, s[|v|..], args);
        ResolvedSlices(w, s, |v|, args);
      }
    }
  }

  lemma ResolvedAt<V>(w: World<V>, s: Sql<V>, i: nat, args: Values<V>)
    requires i < |s|
    ensures Resolved(w, s, args)[i] == Ch(' ') <==> s[i] == Ch(' ')
  {
    ResolvedChar(w, s[i], args);
  }

  lemma {:induction false} ResolvedSuffix<V>(w: World<V>, s: Sql<V>, words: seq<string>, args: Values<V>)
    ensures RemoveSuffix(Resolved(w, s, args), words) == Resolved(w, RemoveSuffix(s, words), args)
  {
    hide *;
    SuffixIs(s, words);
    SuffixIs(Resolved(w, s, args), words);
    if words != [] {
      var v := Text.TrimSpace(words[0]);
      ResolvedSuffix(w, s, words[1..], args);
      if |v| <= |s| {
        var n := |s| - |v|;
        ResolvedStarts(w, s[n..], v, args);
        ResolvedTrim(w, s[..n], args);
        ResolvedSlices(w, s, n, args);
      }
    }
  }

  lemma ResolvedPrefixed<V>(w: World<V>, word: string, s: Sql<V>, args: Values<V>)
    ensures Prefixed(word, Resolved(w, s, args)) == Resolved(w, Prefixed(word, s), args)
  {
    hide Resolved;
    ResolvedSpace(w, args);
    ResolvedChars(w, word, args);
    ResolvedConcat(w, Chars(word) + [Ch(' ')], s, args);
    ResolvedConcat(w, Chars(word), [Ch(' ')], args);
  }

  lemma ResolvedLooped<V>(w: World<V>, parts: seq<Sql<V>>, open: string, close: string, separator: string,
                          args: Values<V>)
    ensures Looped(ResolvedAll(w, parts, args), open, close, separator)
            == Resolved(w, Looped(parts, open, close, separator), args)
  {
    hide Resolved, Trim, Separator, JoinedWith;
    ResolvedSpace(w, args);
    var middle := JoinedWith(parts, Separator(separator));
    ResolvedJoinedWith(w, parts, Separator(separator), args);
    ResolvedChars(w, open, args);
    ResolvedChars(w, close, args);
    ResolvedConcat(w, Chars(open) + middle, Chars(close), args);
    ResolvedConcat(w, Chars(open), middle, args);
    ResolvedTrim(w, Chars(open) + middle + Chars(close), args);
  }

  lemma ResolvedTrimmed<V>(w: World<V>, prefix: string, suffix: string, prefixes: seq<string>, suffixes: seq<string>,
                           s: Sql<V>, args: Values<V>)
    ensures Trimmed(prefix, suffix, prefixes, suffixes, Resolved(w, s, args))
         == Resolved(w, Trimmed(prefix, suffix, prefixes, suffixes, s), args)
  {
    hide Resolved, Trim, RemovePrefix, RemoveSuffix, Text.TrimSpace, Joined;
    ResolvedSpace(w, args);
    ResolvedTrim(w, s, args);
    ResolvedPrefix(w, Trim(s), prefixes, args);
    ResolvedTrim(w, RemovePrefix(Trim(s), prefixes), args);
    var inner := Trim(RemovePrefix(Trim(s), prefixes));
    ResolvedSuffix(w, inner, suffixes, args);
    var content := RemoveSuffix(inner, suffixes);
    var p, q := Chars<V>(Text.TrimSpace(prefix)), Chars<V>(Text.TrimSpace(suffix));
    ResolvedChars(w, Text.TrimSpace(prefix), args);
    ResolvedChars(w, Text.TrimSpace(suffix), args);
    ResolvedThree(w, p, content, q, args);
    ResolvedJoined(w, [p, content, q], args);
  }

  lemma ResolvedThree<V>(w: World<V>, a: Sql<V>, b: Sql<V>, c: Sql<V>, args: Values<V>)
    ensures ResolvedAll(w, [a, b, c], args) == [Resolved(w, a, args), Resolved(w, b, args), Resolved(w, c, args)]
  {
    hide Resolved, ResolvedAll;
    assert [a, b, c] == [a] + ([b] + ([c] + []));
    ResolvedAllMore(w, a, [b] + ([c] + []), args);
    ResolvedAllMore(w, b, [c] + [], args);
    ResolvedAllMore(w, c, [], args);
  }

  lemma ResolvedAllMore<V>(w: World<V>, first: Sql<V>, rest: seq<Sql<V>>, args: Values<V>)
    ensures ResolvedAll(w, [first] + rest, args) == [Resolved(w, first, args)] + ResolvedAll(w, rest, args)
    ensures ResolvedAll(w, [], args) == []
  {
    hide Resolved;
    assert ([first] + rest)[1..] == rest;
  }
}
