/** Rendering with aliases means what direct rendering writes. */
module DynamicProof {
  import opened Dynamic
  import opened DynamicMeaning
  import opened Numbers
  import opened Prelude
  import Text

  // ---- aliases ----

  /** Letters, digits and underscores. */
  predicate Plain(s: string) {
    forall c <- s :: 'a' <= c <= 'z' || 'A' <= c <= 'Z' || '0' <= c <= '9' || c == '_'
  }

  /** What follows the last underscore. */
  function LastPart(s: string): string {
    if s == "" || s[|s| - 1] == '_' then "" else LastPart(s[..|s| - 1]) + [s[|s| - 1]]
  }

  function AliasNumber(alias: string): int {
    DigitsValue(LastPart(alias))
  }

  lemma {:induction false} LastPartIs(s: string, t: string)
    requires '_' !in t
    ensures LastPart(s + "_" + t) == t
  {
    var all := s + "_" + t;
    if t == "" {
      assert all[|all| - 1] == '_';
    } else {
      var n := |t| - 1;
      assert t[n] in t;
      assert all[..|all| - 1] == s + "_" + t[..n] && all[|all| - 1] == t[n];
      LastPartIs(s, t[..n]);
      assert t[..n] + [t[n]] == t;
    }
  }

  lemma {:induction false} SanitizedPlain(s: string)
    ensures Plain(Sanitized(s))
  {
    if s != "" { SanitizedPlain(s[1..]); }
  }

  lemma PlainConcat(a: string, b: string)
    requires Plain(a) && Plain(b)
    ensures Plain(a + b)
  {
  }

  lemma AliasIs(name: string, n: nat)
    ensures Reserved(Alias(name, n)) && Plain(Alias(name, n)) && AliasNumber(Alias(name, n)) == n
  {
    hide Sanitized, Plain, LastPart, DigitsValue, Digits;
    var middle := if Sanitized(name) == "" then "item" else Sanitized(name);
    SanitizedPlain(name);
    PlainParts(n);
    assert Plain(middle);
    PlainConcat(PREFIX, middle);
    PlainConcat(PREFIX + middle, "_");
    PlainConcat(PREFIX + middle + "_", Itoa(n));
    assert '_' !in Itoa(n);
    LastPartIs(PREFIX + middle, Itoa(n));
    DigitsBack(n);
  }

  lemma PlainParts(n: nat)
    ensures Plain(PREFIX) && Plain("item") && Plain("_") && Plain(Itoa(n))
  {
    hide Digits;
  }

  // ---- good trees ----

  ghost predicate GoodPath(p: Path) {
    !Reserved(p.root) && !Reserved(p.root + p.tail)
  }

  ghost predicate GoodPaths(names: seq<Path>) {
    forall p <- names :: GoodPath(p)
  }

  /** A character, or a placeholder of an ordinary name that is not one of these. */
  predicate GoodSym<V>(x: Sym<V>, taken: set<string>) {
    x.Ch? || (x.Ph? && !Reserved(x.root) && x.root !in taken)
  }

  predicate GoodSql<V>(s: Sql<V>, taken: set<string>) {
    forall i :: 0 <= i < |s| ==> GoodSym(s[i], taken)
  }

  /**
   No name starts with the prefix of aliases; the index of a loop is neither its item nor bound by a loop around it; a
   loop variable is not bound again inside its loop; and no text in a loop has a placeholder of another name that is
   bound in that loop. The names of the loops around and the names bound in them are given.
   */
  ghost predicate GoodNode<V, E>(node: Node<V, E>, bound: set<string>, local: set<string>)
    decreases node, 0
  {
    match node
    case TextNode(text) => GoodSql(text, local - bound)
    case If(test, children) => GoodPaths(test.names) && GoodNodes(children, bound, local)
    case Where(children) => GoodNodes(children, bound, local)
    case SetNode(children) => GoodNodes(children, bound, local)
    case TrimNode(_, _, _, _, children) => GoodNodes(children, bound, local)
    case Foreach(collection, item, index, _, _, _, _, children) =>
      var x, i := ItemName(item), Text.TrimSpace(index);
      && GoodPath(collection) && !Reserved(x) && !Reserved(i) && (i != "" ==> i != x && i !in bound)
      && GoodNodes(children, Inside(bound, x, i), local + BindsIn(children))
    case Choose(children) => GoodNodes(children, bound, local)
    case When(test, children) => GoodPaths(test.names) && GoodNodes(children, bound, local)
    case Otherwise(children) => GoodNodes(children, bound, local)
    case Include(_) => true
    case Bind(name, _, value) =>
      !Reserved(Text.TrimSpace(name)) && Text.TrimSpace(name) !in bound && GoodPaths(value.names)
  }

  ghost predicate GoodNodes<V, E>(nodes: seq<Node<V, E>>, bound: set<string>, local: set<string>)
    decreases nodes, 1
  {
    forall n <- nodes :: GoodNode(n, bound, local)
  }

  function Inside(bound: set<string>, item: string, index: string): set<string> {
    if index == "" then bound + {item} else bound + {item, index}
  }

  // ---- how the two states go together ----

  ghost predicate ScopesAgree<V(!new)>(c: Context<V>, loops: Values<V>) {
    && c.aliases.Keys == loops.Keys
    && (forall x <- loops ::
          Reserved(c.aliases[x]) && Plain(c.aliases[x]) && c.aliases[x] in c.args && c.args[c.aliases[x]] == loops[x])
    && (forall x <- loops :: !Reserved(x) && x in c.values && c.values[x] == loops[x])
  }

  ghost predicate ArgsAgree<V(!new)>(c: Context<V>, args: Values<V>, loops: Values<V>) {
    && (forall n <- c.values :: !Reserved(n) && (n !in loops ==> n in c.args && c.args[n] == c.values[n]))
    && (forall k: string | !Reserved(k) :: k in c.args <==> k in args)
    && (forall k <- args :: !Reserved(k) && c.args[k] == args[k])
  }

  /** Every alias among the arguments has a number below the next one. */
  ghost predicate Numbered<V(!new)>(c: Context<V>) {
    forall k <- c.args :: Reserved(k) ==> AliasNumber(k) < c.next && Plain(k)
  }

  ghost predicate Rel<V(!new)>(c: Context<V>, args: Values<V>, loops: Values<V>) {
    ScopesAgree(c, loops) && ArgsAgree(c, args, loops) && Numbered(c)
  }

  /** Some arguments have all the aliases of a state. */
  ghost predicate Extends<V(!new)>(c: Context<V>, all: Values<V>) {
    forall k <- c.args :: Reserved(k) ==> k in all && all[k] == c.args[k]
  }

  ghost predicate Grows<V(!new)>(c: Context<V>, d: Context<V>) {
    c.next <= d.next && Extends(c, d.args)
  }

  lemma LookupAgrees<V(!new)>(w: World<V>, c: Context<V>, args: Values<V>, loops: Values<V>, p: Path)
    requires Rel(c, args, loops) && GoodPath(p)
    ensures Lookup(w, c, p) == DirectLookup(w, args, loops, p)
  {
    hide Numbered, Reserved, Plain;
    var full := p.root + p.tail;
    if full !in c.values && full !in c.args {
      assert p.root in c.args <==> p.root in args;
    }
  }

  lemma {:induction false} LookupsAgree<V(!new)>(w: World<V>, c: Context<V>, args: Values<V>, loops: Values<V>,
                                                 names: seq<Path>)
    requires Rel(c, args, loops) && GoodPaths(names)
    ensures LookupAll(w, c, names) == DirectLookups(w, args, loops, names)
  {
    if names != [] {
      hide Rel, GoodPath, Lookup, DirectLookup;
      assert names[0] in names && forall p <- names[1..] :: p in names;
      LookupAgrees(w, c, args, loops, names[0]);
      LookupsAgree(w, c, args, loops, names[1..]);
    }
  }

  lemma EnterAgrees<V(!new)>(c: Context<V>, args: Values<V>, loops: Values<V>, name: string, value: V)
    requires Rel(c, args, loops) && !Reserved(name)
    ensures Rel(Entered(c, name, value), args, loops[name := value]) && Grows(c, Entered(c, name, value))
  {
    hide Reserved, Plain, AliasNumber, Alias;
    AliasIs(name, c.next);
  }

  lemma GrowsOn<V(!new)>(c: Context<V>, d: Context<V>, f: Context<V>)
    requires Grows(c, d) && Grows(d, f)
    ensures Grows(c, f)
  {
    hide Reserved;
  }

  // ---- what a fragment means ----

  /** With any arguments that have the aliases of a state, a fragment reads as another one. */
  ghost predicate Means<V(!new)>(w: World<V>, s: Sql<V>, d: Context<V>, t: Sql<V>) {
    |s| == |t| && forall all: Values<V> | Extends(d, all) :: Resolved(w, s, all) == t
  }

  ghost predicate MeansAll<V(!new)>(w: World<V>, parts: seq<Sql<V>>, d: Context<V>, ts: seq<Sql<V>>) {
    |parts| == |ts| && forall i :: 0 <= i < |parts| ==> Means(w, parts[i], d, ts[i])
  }

  lemma MeansOn<V(!new)>(w: World<V>, s: Sql<V>, d: Context<V>, f: Context<V>, t: Sql<V>)
    requires Means(w, s, d, t) && Grows(d, f)
    ensures Means(w, s, f, t)
  {
    hide Reserved, Resolved;
    forall all: Values<V> | Extends(f, all)
      ensures Resolved(w, s, all) == t
    {
      assert Extends(d, all);
    }
  }

  lemma {:induction false} ResolvedAllMeans<V(!new)>(w: World<V>, parts: seq<Sql<V>>, d: Context<V>, ts: seq<Sql<V>>,
                                                     all: Values<V>)
    requires MeansAll(w, parts, d, ts) && Extends(d, all)
    ensures ResolvedAll(w, parts, all) == ts
  {
    hide Resolved, Extends;
    if parts != [] {
      assert MeansAll(w, parts[1..], d, ts[1..]);
      ResolvedAllMeans(w, parts[1..], d, ts[1..], all);
      assert Means(w, parts[0], d, ts[0]);
    }
  }

  lemma MeansJoined<V(!new)>(w: World<V>, parts: seq<Sql<V>>, d: Context<V>, ts: seq<Sql<V>>)
    requires MeansAll(w, parts, d, ts)
    ensures Means(w, Joined(parts), d, Joined(ts))
  {
    hide Resolved, Extends, Joined, MeansAll;
    ExtendsSelf(d);
    forall all: Values<V> | Extends(d, all)
      ensures Resolved(w, Joined(parts), all) == Joined(ts)
    {
      ResolvedAllMeans(w, parts, d, ts, all);
      ResolvedJoined(w, parts, all);
    }
    assert |Joined(parts)| == |Resolved(w, Joined(parts), d.args)|;
  }

  lemma ExtendsSelf<V(!new)>(d: Context<V>)
    ensures Extends(d, d.args)
  {
  }

  lemma MeansLooped<V(!new)>(w: World<V>, parts: seq<Sql<V>>, d: Context<V>, ts: seq<Sql<V>>, open: string,
                             close: string, separator: string)
    requires MeansAll(w, parts, d, ts)
    ensures Means(w, Looped(parts, open, close, separator), d, Looped(ts, open, close, separator))
  {
    hide Resolved, Extends, Looped, MeansAll;
    ExtendsSelf(d);
    var s := Looped(parts, open, close, separator);
    forall all: Values<V> | Extends(d, all)
      ensures Resolved(w, s, all) == Looped(ts, open, close, separator)
    {
      ResolvedAllMeans(w, parts, d, ts, all);
      ResolvedLooped(w, parts, open, close, separator, all);
    }
    assert |s| == |Resolved(w, s, d.args)|;
  }

  lemma MeansWhere<V(!new)>(w: World<V>, s: Sql<V>, d: Context<V>, t: Sql<V>, word: string, words: seq<string>)
    requires Means(w, s, d, t)
    ensures Means(w, Prefixed(word, RemovePrefix(Trim(s), words)), d, Prefixed(word, RemovePrefix(Trim(t), words)))
  {
    hide Resolved, Extends, Trim, RemovePrefix, Prefixed;
    ExtendsSelf(d);
    var r := RemovePrefix(Trim(s), words);
    forall all: Values<V> | Extends(d, all)
      ensures Resolved(w, Prefixed(word, r), all) == Prefixed(word, RemovePrefix(Trim(t), words))
    {
      ResolvedTrim(w, s, all);
      ResolvedPrefix(w, Trim(s), words, all);
      ResolvedPrefixed(w, word, r, all);
    }
    assert |Prefixed(word, r)| == |Resolved(w, Prefixed(word, r), d.args)|;
  }

  lemma MeansSet<V(!new)>(w: World<V>, s: Sql<V>, d: Context<V>, t: Sql<V>, word: string, words: seq<string>)
    requires Means(w, s, d, t)
    ensures Means(w, Prefixed(word, RemoveSuffix(Trim(s), words)), d, Prefixed(word, RemoveSuffix(Trim(t), words)))
  {
    hide Resolved, Extends, Trim, RemoveSuffix, Prefixed;
    ExtendsSelf(d);
    var r := RemoveSuffix(Trim(s), words);
    forall all: Values<V> | Extends(d, all)
      ensures Resolved(w, Prefixed(word, r), all) == Prefixed(word, RemoveSuffix(Trim(t), words))
    {
      ResolvedTrim(w, s, all);
      ResolvedSuffix(w, Trim(s), words, all);
      ResolvedPrefixed(w, word, r, all);
    }
    assert |Prefixed(word, r)| == |Resolved(w, Prefixed(word, r), d.args)|;
  }

  lemma MeansTrimmed<V(!new)>(w: World<V>, s: Sql<V>, d: Context<V>, t: Sql<V>, prefix: string, suffix: string,
                              prefixes: seq<string>, suffixes: seq<string>)
    requires Means(w, s, d, t)
    ensures Means(w, Trimmed(prefix, suffix, prefixes, suffixes, s), d, Trimmed(prefix, suffix, prefixes, suffixes, t))
  {
    hide Resolved, Extends, Trimmed;
    ExtendsSelf(d);
    var r := Trimmed(prefix, suffix, prefixes, suffixes, s);
    forall all: Values<V> | Extends(d, all)
      ensures Resolved(w, r, all) == Trimmed(prefix, suffix, prefixes, suffixes, t)
    {
      ResolvedTrimmed(w, prefix, suffix, prefixes, suffixes, s, all);
    }
    assert |r| == |Resolved(w, r, d.args)|;
  }

  lemma MeansNothing<V(!new)>(w: World<V>, d: Context<V>)
    ensures Means(w, [], d, [])
  {
  }

  /** A text with its loop variables renamed means the text with their values. */
  lemma MeansText<V(!new)>(w: World<V>, s: Sql<V>, c: Context<V>, args: Values<V>, loops: Values<V>, local: set<string>)
    requires ScopesAgree(c, loops) && GoodSql(s, local - loops.Keys)
    ensures Means(w, Renamed(s, c.aliases), c, Filled(w, s, args, loops, local))
  {
    hide Plain, Reserved;
    forall all: Values<V> | Extends(c, all)
      ensures Resolved(w, Renamed(s, c.aliases), all) == Filled(w, s, args, loops, local)
    {
      forall i | 0 <= i < |s|
        ensures ResolvedSym(w, RenamedSym(s[i], c.aliases), all) == FilledSym(w, s[i], args, loops, local)
      {
        assert GoodSym(s[i], local - loops.Keys);
      }
    }
  }

  // ---- normalised texts ----

  lemma {:induction false} TrimLeftGood<V>(s: Sql<V>, taken: set<string>)
    requires GoodSql(s, taken)
    ensures GoodSql(TrimLeft(s), taken)
  {
    hide GoodSym;
    if s != [] && IsBlank(s[0]) { TrimLeftGood(s[1..], taken); }
  }

  lemma {:induction false} TrimRightGood<V>(s: Sql<V>, taken: set<string>)
    requires GoodSql(s, taken)
    ensures GoodSql(TrimRight(s), taken)
  {
    hide GoodSym;
    if s != [] && IsBlank(s[|s| - 1]) { TrimRightGood(s[..|s| - 1], taken); }
  }

  lemma TrimGood<V>(s: Sql<V>, taken: set<string>)
    requires GoodSql(s, taken)
    ensures GoodSql(Trim(s), taken)
  {
    TrimLeftGood(s, taken);
    TrimRightGood(TrimLeft(s), taken);
  }

  predicate GoodParts<V>(parts: seq<Sql<V>>, taken: set<string>) {
    forall i :: 0 <= i < |parts| ==> GoodSql(parts[i], taken)
  }

  lemma {:induction false} JoinedGood<V>(parts: seq<Sql<V>>, taken: set<string>)
    requires GoodParts(parts, taken)
    ensures GoodSql(Joined(parts), taken)
  {
    if parts != [] {
      hide Trim;
      TrimGood(parts[0], taken);
      assert GoodParts(parts[1..], taken) by { hide GoodSql; }
      JoinedGood(parts[1..], taken);
    }
  }

  lemma {:induction false} LinesGood<V>(s: Sql<V>, taken: set<string>)
    requires GoodSql(s, taken)
    ensures GoodParts(Lines(s), taken)
    decreases |s|
  {
    hide GoodSym;
    var i := LineEnd(s);
    if i < |s| { LinesGood(s[i + 1..], taken); }
  }

  lemma NormalizedGood<V>(s: Sql<V>, taken: set<string>)
    requires GoodSql(s, taken)
    ensures GoodSql(Normalized(s), taken)
  {
    hide GoodSql, GoodParts, Trim, Joined, Lines;
    TrimGood(s, taken);
    LinesGood(Trim(s), taken);
    JoinedGood(Lines(Trim(s)), taken);
  }

  // ---- loops ----

  /** The arguments with the names of loop variables are the same before and after. */
  ghost predicate Untouched<V(!new)>(args: Values<V>, after: Values<V>, names: set<string>) {
    forall x <- names :: (x in args <==> x in after) && (x in args ==> args[x] == after[x])
  }

  /** The state in which an iteration renders its children. */
  function Iteration<V>(w: World<V>, c: Context<V>, item: string, index: string, value: V, i: nat): Context<V> {
    var inner := Entered(c, item, value);
    if index == "" then inner else Entered(inner, index, w.ofIndex(i))
  }

  ghost predicate LoopNames(item: string, index: string, bound: set<string>) {
    !Reserved(item) && !Reserved(index) && (index != "" ==> index != item && index !in bound)
  }

  lemma IterationAgrees<V(!new)>(w: World<V>, c: Context<V>, args: Values<V>, loops: Values<V>, item: string,
                                 index: string, value: V, i: nat)
    requires Rel(c, args, loops) && LoopNames(item, index, loops.Keys)
    ensures Rel(Iteration(w, c, item, index, value, i), args, Scope(w, loops, item, index, value, i))
    ensures Grows(c, Iteration(w, c, item, index, value, i))
    ensures Scope(w, loops, item, index, value, i).Keys == Inside(loops.Keys, item, index)
  {
    hide Rel, Grows, Reserved, Entered;
    EnterAgrees(c, args, loops, item, value);
    var inner := Entered(c, item, value);
    if index != "" {
      EnterAgrees(inner, args, loops[item := value], index, w.ofIndex(i));
      GrowsOn(c, inner, Entered(inner, index, w.ofIndex(i)));
    }
  }

  /** Leaving an iteration puts the aliases back. */
  lemma LeftAliases<V>(w: World<V>, c: Context<V>, d: Context<V>, item: string, index: string, value: V, i: nat)
    requires index != "" ==> index != item
    requires d.aliases == Iteration(w, c, item, index, value, i).aliases
    ensures Left(d, c, item, index).aliases == c.aliases
    ensures Left(d, c, item, index).args == d.args && Left(d, c, item, index).next == d.next
  {
    hide Alias;
  }

  /** What a name has as its value after an iteration. */
  lemma LeftValue<V>(c: Context<V>, d: Context<V>, item: string, index: string, n: string)
    ensures var v := Left(d, c, item, index).values;
            if index != "" && n == index then n !in v
            else if n == item then (n in v <==> n in c.values) && (n in v ==> v[n] == c.values[n])
            else (n in v <==> n in d.values) && (n in v ==> v[n] == d.values[n])
  {
    hide Alias;
  }

  lemma LeftLoops<V(!new)>(w: World<V>, c: Context<V>, d: Context<V>, loops: Values<V>, item: string, index: string,
                           value: V, i: nat)
    requires ScopesAgree(c, loops) && LoopNames(item, index, loops.Keys)
    requires ScopesAgree(d, Scope(w, loops, item, index, value, i))
    ensures var v := Left(d, c, item, index).values; forall x <- loops :: x in v && v[x] == loops[x]
  {
    hide Reserved, Plain, Left;
    forall x | x in loops
      ensures x in Left(d, c, item, index).values && Left(d, c, item, index).values[x] == loops[x]
    {
      LeftValue(c, d, item, index, x);
    }
  }

  /** The values that are left are loop variables or arguments. */
  lemma LeftValues<V(!new)>(w: World<V>, c: Context<V>, d: Context<V>, args: Values<V>, a: Values<V>, loops: Values<V>,
                            item: string, index: string, value: V, i: nat)
    requires ArgsAgree(c, args, loops) && LoopNames(item, index, loops.Keys)
    requires ArgsAgree(d, a, Scope(w, loops, item, index, value, i)) && Untouched(args, a, {item})
    ensures var v := Left(d, c, item, index).values;
            forall n <- v :: !Reserved(n) && (n !in loops ==> n in d.args && d.args[n] == v[n])
  {
    hide Reserved, Plain, Left;
    forall n | n in Left(d, c, item, index).values
      ensures !Reserved(n) && (n !in loops ==> n in d.args && d.args[n] == Left(d, c, item, index).values[n])
    {
      LeftValue(c, d, item, index, n);
      if n == item {
        assert n in c.args <==> n in args;
        assert n in d.args <==> n in a;
      }
    }
  }

  lemma LeftAgrees<V(!new)>(w: World<V>, c: Context<V>, d: Context<V>, args: Values<V>, a: Values<V>, loops: Values<V>,
                            item: string, index: string, value: V, i: nat)
    requires Rel(c, args, loops) && LoopNames(item, index, loops.Keys)
    requires Rel(d, a, Scope(w, loops, item, index, value, i)) && Grows(Iteration(w, c, item, index, value, i), d)
    requires d.aliases == Iteration(w, c, item, index, value, i).aliases
    requires Untouched(args, a, Scope(w, loops, item, index, value, i).Keys)
    ensures Rel(Left(d, c, item, index), a, loops) && Grows(c, Left(d, c, item, index))
    ensures Left(d, c, item, index).aliases == c.aliases
    ensures Grows(d, Left(d, c, item, index)) && Untouched(args, a, loops.Keys)
  {
    hide Left, Iteration, Reserved, Plain, ScopesAgree, ArgsAgree, Numbered, Grows, AliasNumber;
    IterationAgrees(w, c, args, loops, item, index, value, i);
    GrowsOn(c, Iteration(w, c, item, index, value, i), d);
    LeftAliases(w, c, d, item, index, value, i);
    LeftLoops(w, c, d, loops, item, index, value, i);
    LeftValues(w, c, d, args, a, loops, item, index, value, i);
    var after := Left(d, c, item, index);
    LeftScopes(c, d, after, loops);
    LeftArgs(w, d, after, a, loops, Scope(w, loops, item, index, value, i));
    LeftNumbers(d, after);
    GrowsSame(c, d, after);
  }

  lemma LeftScopes<V(!new)>(c: Context<V>, d: Context<V>, after: Context<V>, loops: Values<V>)
    requires ScopesAgree(c, loops) && Grows(c, d) && after.args == d.args && after.aliases == c.aliases
    requires forall x <- loops :: x in after.values && after.values[x] == loops[x]
    ensures ScopesAgree(after, loops)
  {
    hide Reserved, Plain;
  }

  lemma LeftArgs<V(!new)>(w: World<V>, d: Context<V>, after: Context<V>, args: Values<V>, loops: Values<V>,
                          inner: Values<V>)
    requires ArgsAgree(d, args, inner) && after.args == d.args
    requires forall n <- after.values :: !Reserved(n) && (n !in loops ==> n in d.args && d.args[n] == after.values[n])
    ensures ArgsAgree(after, args, loops)
  {
    hide Reserved;
  }

  lemma LeftNumbers<V(!new)>(d: Context<V>, after: Context<V>)
    requires Numbered(d) && after.args == d.args && after.next == d.next
    ensures Numbered(after)
  {
    hide Reserved, Plain, AliasNumber;
  }

  lemma GrowsSame<V(!new)>(c: Context<V>, d: Context<V>, after: Context<V>)
    requires Grows(c, d) && after.args == d.args && after.next == d.next
    ensures Grows(c, after) && Grows(d, after)
  {
    hide Reserved;
  }

  // ---- the main result ----

  /** What holds between the states before and after, and the arguments after. */
  ghost predicate Follows<V(!new)>(c: Context<V>, d: Context<V>, args: Values<V>, after: Values<V>, loops: Values<V>) {
    Rel(d, after, loops) && Grows(c, d) && d.aliases == c.aliases && Untouched(args, after, loops.Keys)
  }

  ghost predicate SameText<V(!new), E>(w: World<V>, r: Result<Sql<V>, Error<E>>, d: Context<V>,
                                       t: Result<Sql<V>, Error<E>>) {
    match r case Err(e) => t == Err(e) case Ok(s) => t.Ok? && Means(w, s, d, t.value)
  }

  ghost predicate SameParts<V(!new), E>(w: World<V>, r: Result<seq<Sql<V>>, Error<E>>, d: Context<V>,
                                        t: Result<seq<Sql<V>>, Error<E>>) {
    match r case Err(e) => t == Err(e) case Ok(s) => t.Ok? && MeansAll(w, s, d, t.value)
  }

  ghost predicate Matches<V(!new), E>(w: World<V>, r: Rendered<V, E>, t: Written<V, E>, c: Context<V>, args: Values<V>,
                                      loops: Values<V>) {
    Follows(c, r.1, args, t.1, loops) && SameText(w, r.0, r.1, t.0)
  }

  lemma FollowsSelf<V(!new)>(c: Context<V>, args: Values<V>, loops: Values<V>)
    requires Rel(c, args, loops)
    ensures Follows(c, c, args, args, loops)
  {
    hide Rel;
  }

  lemma FollowsOn<V(!new)>(c: Context<V>, d: Context<V>, f: Context<V>, args: Values<V>, a: Values<V>, b: Values<V>,
                           loops: Values<V>)
    requires Follows(c, d, args, a, loops) && Follows(d, f, a, b, loops)
    ensures Follows(c, f, args, b, loops)
  {
    hide Rel, Grows;
    GrowsOn(c, d, f);
  }

  lemma NothingSame<V(!new), E>(w: World<V>, c: Context<V>)
    ensures SameText<V, E>(w, Ok([]), c, Ok([])) && SameParts<V, E>(w, Ok([]), c, Ok([]))
  {
    MeansNothing(w, c);
  }

  lemma {:induction false} RenderMatches<V(!new), E>(w: World<V>, node: Node<V, E>, c: Context<V>, args: Values<V>,
                                                     loops: Values<V>, local: set<string>)
    requires Rel(c, args, loops) && GoodNode(node, loops.Keys, local)
    ensures Matches(w, Render(w, node, c), Direct(w, node, args, loops, local), c, args, loops)
    decreases node, 1, 0
  {
    hide Rel, Matches, Render, Direct;
    match node
    case TextNode(text) => TextMatches(w, node, c, args, loops, local);
    case If(_, _) => IfMatches(w, node, c, args, loops, local);
    case Where(_) => WrapMatches(w, node, c, args, loops, local);
    case SetNode(_) => WrapMatches(w, node, c, args, loops, local);
    case TrimNode(_, _, _, _, _) => WrapMatches(w, node, c, args, loops, local);
    case Foreach(_, _, _, _, _, _, _, _) => LoopMatches(w, node, c, args, loops, local);
    case Choose(_) => ChooseMatches(w, node, c, args, loops, local);
    case When(_, _) => WrapMatches(w, node, c, args, loops, local);
    case Otherwise(_) => WrapMatches(w, node, c, args, loops, local);
    case Include(_) => IncludeMatches(w, node, c, args, loops, local);
    case Bind(_, _, _) => BindMatches(w, node, c, args, loops, local);
  }

  lemma IncludeMatches<V(!new), E>(w: World<V>, node: Node<V, E>, c: Context<V>, args: Values<V>, loops: Values<V>,
                                   local: set<string>)
    requires Rel(c, args, loops) && node.Include?
    ensures Matches(w, Render(w, node, c), Direct(w, node, args, loops, local), c, args, loops)
  {
    hide Rel, Follows;
    FollowsSelf(c, args, loops);
  }

  lemma TextMatches<V(!new), E>(w: World<V>, node: Node<V, E>, c: Context<V>, args: Values<V>, loops: Values<V>,
                                local: set<string>)
    requires Rel(c, args, loops) && node.TextNode? && GoodSql(node.text, local - loops.Keys)
    ensures Matches(w, Render(w, node, c), Direct(w, node, args, loops, local), c, args, loops)
  {
    hide Renamed, Filled, Normalized, ScopesAgree, ArgsAgree, GoodSql, Numbered, Means, Follows;
    NormalizedGood(node.text, local - loops.Keys);
    MeansText(w, Normalized(node.text), c, args, loops, local);
    FollowsSelf(c, args, loops);
  }

  lemma {:induction false} IfMatches<V(!new), E>(w: World<V>, node: Node<V, E>, c: Context<V>, args: Values<V>,
                                                 loops: Values<V>, local: set<string>)
    requires Rel(c, args, loops) && GoodNode(node, loops.Keys, local) && node.If?
    ensures Matches(w, Render(w, node, c), Direct(w, node, args, loops, local), c, args, loops)
    decreases node, 0, 0
  {
    hide Rel, Follows, SameText, RenderChildren, DirectChildren, LookupAll, DirectLookups, GoodPaths, GoodNodes;
    FollowsSelf(c, args, loops);
    NothingSame<V, E>(w, c);
    LookupsAgree(w, c, args, loops, node.test.names);
    ChildrenMatch(w, node.children, c, args, loops, local);
    var test := node.test.decide(LookupAll(w, c, node.test.names));
    if test.Err? { ErrorSame<V, E>(w, c, Evaluation(test.error)); }
  }

  lemma ErrorSame<V(!new), E>(w: World<V>, c: Context<V>, e: Error<E>)
    ensures SameText<V, E>(w, Err(e), c, Err(e)) && SameParts<V, E>(w, Err(e), c, Err(e))
  {
  }

  lemma {:induction false} WrapMatches<V(!new), E>(w: World<V>, node: Node<V, E>, c: Context<V>, args: Values<V>,
                                                   loops: Values<V>, local: set<string>)
    requires Rel(c, args, loops) && GoodNode(node, loops.Keys, local)
    requires node.Where? || node.SetNode? || node.TrimNode? || node.When? || node.Otherwise?
    ensures Matches(w, Render(w, node, c), Direct(w, node, args, loops, local), c, args, loops)
    decreases node, 0, 0
  {
    hide Rel, Follows, RenderChildren, DirectChildren, GoodNodes, Prefixed, Trimmed, Trim, RemovePrefix, RemoveSuffix,
         Means;
    ChildrenMatch(w, node.children, c, args, loops, local);
    var (r, d) := RenderChildren(w, node.children, c);
    var (t, a) := DirectChildren(w, node.children, args, loops, local);
    if r.Ok? {
      MeansWhere(w, r.value, d, t.value, "WHERE", ["AND", "OR"]);
      MeansSet(w, r.value, d, t.value, "SET", [","]);
      if node.TrimNode? {
        MeansTrimmed(w, r.value, d, t.value, node.prefix, node.suffix, node.prefixes, node.suffixes);
      }
    }
  }

  lemma {:induction false} ChooseMatches<V(!new), E>(w: World<V>, node: Node<V, E>, c: Context<V>, args: Values<V>,
                                                     loops: Values<V>, local: set<string>)
    requires Rel(c, args, loops) && GoodNode(node, loops.Keys, local) && node.Choose?
    ensures Matches(w, Render(w, node, c), Direct(w, node, args, loops, local), c, args, loops)
    decreases node, 0, 0
  {
    hide Rel, Follows, SameText, RenderChildren, DirectChildren, Chosen, DirectChosen;
    FollowsSelf(c, args, loops);
    NothingSame<V, E>(w, c);
    ChosenAgrees(w, node.children, 0, None, c, args, loops, local);
    var chosen := Chosen(w, node.children, 0, None, c);
    if chosen.Err? {
      ErrorSame<V, E>(w, c, chosen.error);
    } else if chosen.value.Some? {
      assert GoodNode(node.children[chosen.value.value], loops.Keys, local);
      ChildrenMatch(w, node.children[chosen.value.value].children, c, args, loops, local);
    }
  }

  lemma {:induction false} ChosenAgrees<V(!new), E>(w: World<V>, branches: seq<Node<V, E>>, i: nat,
                                                    otherwise: Option<nat>, c: Context<V>, args: Values<V>,
                                                    loops: Values<V>, local: set<string>)
    requires i <= |branches| && (otherwise.Some? ==> otherwise.value < i && branches[otherwise.value].Otherwise?)
    requires Rel(c, args, loops) && GoodNodes(branches, loops.Keys, local)
    ensures Chosen(w, branches, i, otherwise, c) == DirectChosen(w, branches, i, otherwise, args, loops)
    decreases |branches| - i
  {
    hide Rel, LookupAll, DirectLookups;
    if i < |branches| {
      assert GoodNode(branches[i], loops.Keys, local);
      if branches[i].When? {
        LookupsAgree(w, c, args, loops, branches[i].test.names);
        ChosenAgrees(w, branches, i + 1, otherwise, c, args, loops, local);
      } else if branches[i].Otherwise? {
        ChosenAgrees(w, branches, i + 1, Some(i), c, args, loops, local);
      }
    }
  }

  lemma BindMatches<V(!new), E>(w: World<V>, node: Node<V, E>, c: Context<V>, args: Values<V>, loops: Values<V>,
                                local: set<string>)
    requires Rel(c, args, loops) && GoodNode(node, loops.Keys, local) && node.Bind?
    ensures Matches(w, Render(w, node, c), Direct(w, node, args, loops, local), c, args, loops)
  {
    hide Rel, Follows, SameText, LookupAll, DirectLookups, Text.TrimSpace, ValidIdentifier, Reserved;
    FollowsSelf(c, args, loops);
    NothingSame<V, E>(w, c);
    ErrorSame<V, E>(w, c, BindNameRequired);
    ErrorSame<V, E>(w, c, BindNameInvalid);
    ErrorSame<V, E>(w, c, BindRaw);
    LookupsAgree(w, c, args, loops, node.value.names);
    var value := node.value.decide(LookupAll(w, c, node.value.names));
    var n := Text.TrimSpace(node.name);
    if value.Err? {
      ErrorSame<V, E>(w, c, Evaluation(value.error));
    } else {
      BindFollows(c, args, loops, n, value.value);
      NothingSame<V, E>(w, Bound(c, n, value.value));
    }
  }

  function Bound<V>(c: Context<V>, name: string, value: V): Context<V> {
    c.(values := c.values[name := value], args := c.args[name := value])
  }

  lemma BindFollows<V(!new)>(c: Context<V>, args: Values<V>, loops: Values<V>, name: string, value: V)
    requires Rel(c, args, loops) && name !in loops && !Reserved(name)
    ensures Follows(c, Bound(c, name, value), args, args[name := value], loops)
  {
    hide Reserved, Plain, AliasNumber, ScopesAgree, ArgsAgree, Numbered;
    BindScopes(c, loops, name, value);
    BindArgs(c, args, loops, name, value);
    BindNumbers(c, name, value);
  }

  lemma BindScopes<V(!new)>(c: Context<V>, loops: Values<V>, name: string, value: V)
    requires ScopesAgree(c, loops) && name !in loops && !Reserved(name)
    ensures ScopesAgree(Bound(c, name, value), loops)
  {
    hide Reserved, Plain;
  }

  lemma BindArgs<V(!new)>(c: Context<V>, args: Values<V>, loops: Values<V>, name: string, value: V)
    requires ArgsAgree(c, args, loops) && !Reserved(name)
    ensures ArgsAgree(Bound(c, name, value), args[name := value], loops)
  {
    hide Reserved;
  }

  lemma BindNumbers<V(!new)>(c: Context<V>, name: string, value: V)
    requires Numbered(c) && !Reserved(name)
    ensures Numbered(Bound(c, name, value))
  {
    hide Reserved, Plain, AliasNumber;
  }

  lemma {:induction false} ChildrenMatch<V(!new), E>(w: World<V>, nodes: seq<Node<V, E>>, c: Context<V>,
                                                     args: Values<V>, loops: Values<V>, local: set<string>)
    requires Rel(c, args, loops) && GoodNodes(nodes, loops.Keys, local)
    ensures Matches(w, RenderChildren(w, nodes, c), DirectChildren(w, nodes, args, loops, local), c, args, loops)
    decreases nodes, 3, 0
  {
    hide Rel, Follows, MeansAll, Means, Joined, RenderNodes, DirectNodes;
    NodesMatch(w, nodes, c, args, loops, local);
    var (r, d) := RenderNodes(w, nodes, c);
    var (t, a) := DirectNodes(w, nodes, args, loops, local);
    if r.Ok? { MeansJoined(w, r.value, d, t.value); }
  }

  ghost predicate PartsMatch<V(!new), E>(w: World<V>, r: (Result<seq<Sql<V>>, Error<E>>, Context<V>),
                                         t: (Result<seq<Sql<V>>, Error<E>>, Values<V>), c: Context<V>, args: Values<V>,
                                         loops: Values<V>) {
    Follows(c, r.1, args, t.1, loops) && SameParts(w, r.0, r.1, t.0)
  }

  /** A fragment that is not empty, and further ones. */
  function Also<V>(first: Sql<V>, parts: seq<Sql<V>>): seq<Sql<V>> {
    (if first == [] then [] else [first]) + parts
  }

  lemma MeansAlso<V(!new)>(w: World<V>, s: Sql<V>, parts: seq<Sql<V>>, d: Context<V>, f: Context<V>, t: Sql<V>,
                           ts: seq<Sql<V>>)
    requires Means(w, s, d, t) && Grows(d, f) && MeansAll(w, parts, f, ts)
    ensures MeansAll(w, Also(s, parts), f, Also(t, ts))
  {
    MeansOn(w, s, d, f, t);
    hide Resolved, Extends, Grows;
  }

  lemma {:induction false} NodesMatch<V(!new), E>(w: World<V>, nodes: seq<Node<V, E>>, c: Context<V>, args: Values<V>,
                                                  loops: Values<V>, local: set<string>)
    requires Rel(c, args, loops) && GoodNodes(nodes, loops.Keys, local)
    ensures PartsMatch(w, RenderNodes(w, nodes, c), DirectNodes(w, nodes, args, loops, local), c, args, loops)
    decreases nodes, 2, 0
  {
    if nodes == [] {
      FollowsSelf(c, args, loops);
    } else {
      FirstMatches(w, nodes, c, args, loops, local);
    }
  }

  lemma {:induction false} FirstMatches<V(!new), E>(w: World<V>, nodes: seq<Node<V, E>>, c: Context<V>, args: Values<V>,
                                                    loops: Values<V>, local: set<string>)
    requires Rel(c, args, loops) && GoodNodes(nodes, loops.Keys, local) && nodes != []
    ensures PartsMatch(w, RenderNodes(w, nodes, c), DirectNodes(w, nodes, args, loops, local), c, args, loops)
    decreases nodes, 1, 0
  {
    hide Rel, Means, MeansAll, Render, Direct, GoodNode, Grows;
    assert nodes[0] in nodes && forall n <- nodes[1..] :: n in nodes;
    RenderMatches(w, nodes[0], c, args, loops, local);
    var (r, d) := Render(w, nodes[0], c);
    var (t, a) := Direct(w, nodes[0], args, loops, local);
    if r.Ok? {
      NodesMatch(w, nodes[1..], d, a, loops, local);
      var (rest, f) := RenderNodes(w, nodes[1..], d);
      var (others, b) := DirectNodes(w, nodes[1..], a, loops, local);
      FollowsOn(c, d, f, args, a, b, loops);
      if rest.Ok? { MeansAlso(w, r.value, rest.value, d, f, t.value, others.value); }
    }
  }

  lemma {:induction false} LoopMatches<V(!new), E>(w: World<V>, node: Node<V, E>, c: Context<V>, args: Values<V>,
                                                   loops: Values<V>, local: set<string>)
    requires Rel(c, args, loops) && GoodNode(node, loops.Keys, local) && node.Foreach?
    ensures Matches(w, Render(w, node, c), Direct(w, node, args, loops, local), c, args, loops)
    decreases node, 0, 0
  {
    hide Rel, Follows, Means, MeansAll, Looped, RenderItems, DirectItems, GoodNodes, GoodPath, Reserved, Lookup,
         DirectLookup, Text.TrimSpace, ItemName;
    FollowsSelf(c, args, loops);
    MeansNothing(w, c);
    LookupAgrees(w, c, args, loops, node.collection);
    var found := Lookup(w, c, node.collection);
    var kind := if found.None? then NilValue else w.elements(found.value);
    if kind.Items? {
      var x, i, inner := ItemName(node.item), Text.TrimSpace(node.index), local + BindsIn(node.children);
      ItemsMatch(w, node.children, x, i, kind.items, 0, c, args, loops, inner);
      var (r, d) := RenderItems(w, node.children, x, i, kind.items, 0, c);
      var (t, a) := DirectItems(w, node.children, x, i, kind.items, 0, args, loops, inner);
      if r.Ok? { MeansLooped(w, r.value, d, t.value, node.open, node.close, node.separator); }
    }
  }

  lemma {:induction false} ItemsMatch<V(!new), E>(w: World<V>, children: seq<Node<V, E>>, item: string, index: string,
                                                  items: seq<V>, i: nat, c: Context<V>, args: Values<V>,
                                                  loops: Values<V>, local: set<string>)
    requires Rel(c, args, loops) && i <= |items| && LoopNames(item, index, loops.Keys)
    requires GoodNodes(children, Inside(loops.Keys, item, index), local)
    ensures PartsMatch(w, RenderItems(w, children, item, index, items, i, c),
                       DirectItems(w, children, item, index, items, i, args, loops, local), c, args, loops)
    decreases children, 4, |items| - i, 1
  {
    if i == |items| {
      FollowsSelf(c, args, loops);
    } else {
      ItemMatches(w, children, item, index, items, i, c, args, loops, local);
    }
  }

  lemma {:induction false} ItemMatches<V(!new), E>(w: World<V>, children: seq<Node<V, E>>, item: string, index: string,
                                                   items: seq<V>, i: nat, c: Context<V>, args: Values<V>,
                                                   loops: Values<V>, local: set<string>)
    requires Rel(c, args, loops) && i < |items| && LoopNames(item, index, loops.Keys)
    requires GoodNodes(children, Inside(loops.Keys, item, index), local)
    ensures PartsMatch(w, RenderItems(w, children, item, index, items, i, c),
                       DirectItems(w, children, item, index, items, i, args, loops, local), c, args, loops)
    decreases children, 4, |items| - i, 0
  {
    hide Rel, Means, MeansAll, RenderChildren, DirectChildren, GoodNodes, Grows, Left, Scope, Inside, LoopNames,
         Entered;
    var scope, inner := Iteration(w, c, item, index, items[i], i), Scope(w, loops, item, index, items[i], i);
    IterationAgrees(w, c, args, loops, item, index, items[i], i);
    ChildrenMatch(w, children, scope, args, inner, local);
    var (r, d) := RenderChildren(w, children, scope);
    var (t, a) := DirectChildren(w, children, args, inner, local);
    LeftAgrees(w, c, d, args, a, loops, item, index, items[i], i);
    var after := Left(d, c, item, index);
    if r.Ok? {
      ItemsMatch(w, children, item, index, items, i + 1, after, a, loops, local);
      var (rest, f) := RenderItems(w, children, item, index, items, i + 1, after);
      var (others, b) := DirectItems(w, children, item, index, items, i + 1, a, loops, local);
      FollowsOn(c, after, f, args, a, b, loops);
      GrowsOn(d, after, f);
      if rest.Ok? { MeansAlso(w, r.value, rest.value, d, f, t.value, others.value); }
    }
  }

  // ---- arguments put into the text ----

  /** The statement with all arguments in the places of their placeholders. */
  function Denoted<V>(w: World<V>, s: Sql<V>, args: Values<V>): (r: Sql<V>)
    ensures |r| == |s|
  {
    seq(|s|, i requires 0 <= i < |s| => DenotedSym(w, s[i], args))
  }

  function DenotedSym<V>(w: World<V>, x: Sym<V>, args: Values<V>): Sym<V> {
    if x.Ph? then Val(Argument(w, args, Path(x.root, x.tail))) else x
  }

  /** The names of a path are ordinary when its root is, because aliases have no dots and brackets. */
  lemma PathReserved(root: string, tail: Tail)
    ensures Reserved(root + tail) <==> Reserved(root)
  {
    var full := root + tail;
    if tail == "" {
      assert full == root;
    } else {
      assert full[|root|] == tail[0];
    }
  }

  lemma NotPlain(root: string, tail: Tail)
    requires tail != ""
    ensures !Plain(root + tail)
  {
    assert (root + tail)[|root|] == tail[0];
    assert tail[0] in root + tail;
  }

  lemma DenotedAgree<V(!new)>(w: World<V>, x: Sym<V>, d: Context<V>, args: Values<V>)
    requires ArgsAgree(d, args, map[]) && Numbered(d) && x.Ph?
    ensures DenotedSym(w, x, d.args) == DenotedSym(w, ResolvedSym(w, x, d.args), args)
  {
    hide Reserved, Plain, AliasNumber;
    var full := x.root + x.tail;
    PathReserved(x.root, x.tail);
    if x.tail != "" { NotPlain(x.root, x.tail); } else { assert full == x.root; }
    if !Reserved(x.root) {
      assert full in d.args <==> full in args;
      assert x.root in d.args <==> x.root in args;
    }
  }

  const NOWHERE: map<string, string> := map[]

  /** A rendering begins with the caller's arguments and no loop variables. */
  function Start<V>(args: Values<V>): Context<V> {
    Context(args, NOWHERE, map[], 0)
  }

  lemma StartAgrees<V(!new)>(args: Values<V>)
    requires forall k <- args :: !Reserved(k)
    ensures Rel(Start(args), args, map[])
  {
    hide Reserved;
  }

  /** Rendering fails as direct rendering does, or its statement, with its arguments put in, is the one of that. */
  ghost predicate Preserved<V(!new), E(!new)>(w: World<V>, nodes: seq<Node<V, E>>, args: Values<V>) {
    var (r, d) := RenderChildren(w, nodes, Start(args));
    var (t, after) := DirectChildren(w, nodes, args, map[], {});
    match r
    case Err(e) => t == Err(e)
    case Ok(s) => t.Ok? && Denoted(w, s, d.args) == Denoted(w, t.value, after)
  }

  /**
   For every node tree and every collection: rendering with aliases fails exactly as direct rendering does, and
   otherwise its statement, with its arguments put in, is the one in which each iteration has its own element and index
   and its own values of the names it binds. No caller argument and no name of the tree starts with the prefix of
   aliases, no index is the item or a name of a loop around it, no loop variable is bound again inside its loop, and no
   text of a loop has a placeholder of a name bound in that loop.
   */
  lemma RenderingPreservesMeaning<V(!new), E(!new)>(w: World<V>, nodes: seq<Node<V, E>>, args: Values<V>)
    requires (forall k <- args :: !Reserved(k)) && GoodNodes(nodes, {}, {})
    ensures Preserved(w, nodes, args)
  {
    hide RenderChildren, DirectChildren, GoodNodes, Reserved, Numbered, ArgsAgree, ScopesAgree, Resolved, Extends;
    StartAgrees(args);
    var nothing: Values<V> := map[];
    assert nothing.Keys == {};
    ChildrenMatch(w, nodes, Start(args), args, nothing, {});
    var (r, d) := RenderChildren(w, nodes, Start(args));
    var (t, after) := DirectChildren(w, nodes, args, map[], {});
    if r.Ok? {
      ExtendsSelf(d);
      assert Resolved(w, r.value, d.args) == t.value;
      DenotedSame(w, r.value, d, after);
    }
  }

  lemma DenotedSame<V(!new)>(w: World<V>, s: Sql<V>, d: Context<V>, args: Values<V>)
    requires ArgsAgree(d, args, map[]) && Numbered(d)
    ensures Denoted(w, s, d.args) == Denoted(w, Resolved(w, s, d.args), args)
  {
    hide ArgsAgree, Numbered, Reserved;
    forall i | 0 <= i < |s|
      ensures DenotedSym(w, s[i], d.args) == DenotedSym(w, ResolvedSym(w, s[i], d.args), args)
    {
      if s[i].Ph? { DenotedAgree(w, s[i], d, args); }
    }
  }
}
