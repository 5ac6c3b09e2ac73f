/**
 The renderer of dynamic SQL in dynamic.go and dynamic_alias.go. Fragments are sequences of characters and placeholders;
 loop variables are renamed to fresh arguments while scope maps are changed and restored.
 */
module Dynamic {
  import opened Numbers
  import opened Prelude
  import Text

  // ---- fragments ----

  /** What may follow the root name of a placeholder: nothing, a property or an index. */
  type Tail = s: string | s == "" || s[0] == '.' || s[0] == '['

  /** A character, a placeholder with a root name and the path after it, or a value put in a placeholder's place. */
  datatype Sym<V> = Ch(c: char) | Ph(root: string, tail: Tail) | Val(value: Option<V>)

  type Sql<V> = seq<Sym<V>>

  predicate IsBlank<V>(s: Sym<V>) {
    s.Ch? && Text.IsSpace(s.c)
  }

  function TrimLeft<V>(s: Sql<V>): (r: Sql<V>)
    ensures |r| <= |s|
  {
    if s != [] && IsBlank(s[0]) then TrimLeft(s[1..]) else s
  }

  function TrimRight<V>(s: Sql<V>): (r: Sql<V>)
    ensures |r| <= |s|
  {
    if s != [] && IsBlank(s[|s| - 1]) then TrimRight(s[..|s| - 1]) else s
  }

  function Trim<V>(s: Sql<V>): (r: Sql<V>)
    ensures |r| <= |s|
  {
    TrimRight(TrimLeft(s))
  }

  function Chars<V>(s: string): (r: Sql<V>)
    ensures |r| == |s| && forall i :: 0 <= i < |s| ==> r[i] == Ch(s[i])
  {
    seq(|s|, i requires 0 <= i < |s| => Ch(s[i]))
  }

  /** Trimmed fragments that are not empty, with a space between them. */
  function Joined<V>(fragments: seq<Sql<V>>): Sql<V> {
    if fragments == [] then []
    else
      var first, rest := Trim(fragments[0]), Joined(fragments[1..]);
      if first == [] then rest else if rest == [] then first else first + [Ch(' ')] + rest
  }

  function JoinedWith<V>(items: seq<Sql<V>>, separator: string): Sql<V> {
    if items == [] then []
    else if |items| == 1 then items[0]
    else items[0] + Chars(separator) + JoinedWith(items[1..], separator)
  }

  /** Whether a fragment starts with a word, whatever the case of the letters. */
  predicate StartsWith<V>(s: Sql<V>, word: string) {
    |word| <= |s| && forall i :: 0 <= i < |word| ==> s[i].Ch? && Text.UpperChar(s[i].c) == Text.UpperChar(word[i])
  }

  /** The first of some words that stands at the beginning, removed, when a space or nothing follows it. */
  function RemovePrefix<V>(s: Sql<V>, words: seq<string>): (r: Sql<V>)
    ensures |r| <= |s|
  {
    if words == [] then s
    else
      var w := Text.TrimSpace(words[0]);
      if w != "" && StartsWith(s, w) && |s| == |w| then []
      else if w != "" && StartsWith(s, w) && |s| > |w| && s[|w|] == Ch(' ') then Trim(s[|w|..])
      else RemovePrefix(s, words[1..])
  }

  function RemoveSuffix<V>(s: Sql<V>, words: seq<string>): (r: Sql<V>)
    ensures |r| <= |s|
  {
    if words == [] then s
    else
      var w := Text.TrimSpace(words[0]);
      if w != "" && |w| <= |s| && StartsWith(s[|s| - |w|..], w) then Trim(s[..|s| - |w|])
      else RemoveSuffix(s, words[1..])
  }

  /** The lines of a fragment, trimmed, without the empty ones, with a space between them. */
  function Lines<V>(s: Sql<V>): seq<Sql<V>>
    decreases |s|
  {
    var i := LineEnd(s);
    if i == |s| then [s] else [s[..i]] + Lines(s[i + 1..])
  }

  function LineEnd<V>(s: Sql<V>): (i: nat)
    ensures i <= |s|
  {
    if s == [] || s[0] == Ch('\n') then 0 else 1 + LineEnd(s[1..])
  }

  function Normalized<V>(s: Sql<V>): Sql<V> {
    if LineEnd(s) == |s| then Trim(s) else Joined(Lines(Trim(s)))
  }

  // ---- node trees ----

  /** A name in a test or a collection: a root and the path after it. */
  datatype Path = Path(root: string, tail: string)

  /** An expression: the names it mentions, and what it makes of their values. */
  datatype Expr<!V, +T, +E> = Expr(names: seq<Path>, decide: seq<Option<V>> -> Result<T, E>)

  datatype Node<!V, +E> =
    | TextNode(text: Sql<V>)
    | If(test: Expr<V, bool, E>, children: seq<Node<V, E>>)
    | Where(children: seq<Node<V, E>>)
    | SetNode(children: seq<Node<V, E>>)
    | TrimNode(prefix: string, suffix: string, prefixes: seq<string>, suffixes: seq<string>, children: seq<Node<V, E>>)
    | Foreach(collection: Path, item: string, index: string, open: string, close: string, separator: string,
              nullable: Option<bool>, children: seq<Node<V, E>>)
    | Choose(children: seq<Node<V, E>>)
    | When(test: Expr<V, bool, E>, children: seq<Node<V, E>>)
    | Otherwise(children: seq<Node<V, E>>)
    | Include(refId: string)
    | Bind(name: string, raw: bool, value: Expr<V, V, E>)

  datatype Error<+E> =
    | Evaluation(e: E) | CollectionRequired | CollectionNil | CollectionKind | ChooseKind | NotExpanded
    | BindNameRequired | BindNameInvalid | BindRaw

  datatype Elements<V> = NilValue | Items(items: seq<V>) | OtherKind

  /** Values: their parts under a path, collections, and the values of loop indexes. */
  datatype World<!V> = World(walk: (V, string) -> Option<V>, elements: V -> Elements<V>, ofIndex: nat -> V,
                             nullable: bool)

  predicate ValidIdentifier(s: string) {
    && s != ""
    && forall i :: 0 <= i < |s| ==>
         s[i] == '_' || 'a' <= s[i] <= 'z' || 'A' <= s[i] <= 'Z' || (i > 0 && '0' <= s[i] <= '9')
  }

  // ---- the state of a rendering ----

  type Values<V> = map<string, V>

  datatype Context<V> = Context(args: Values<V>, aliases: map<string, string>, values: Values<V>, next: nat)

  /** The value under a root name and the path after it. */
  function Walked<V>(w: World<V>, values: Values<V>, p: Path): Option<V> {
    if p.root !in values then None else if p.tail == "" then Some(values[p.root]) else w.walk(values[p.root], p.tail)
  }

  function Lookup<V>(w: World<V>, c: Context<V>, p: Path): Option<V> {
    var full := p.root + p.tail;
    if full in c.values then Some(c.values[full])
    else if full in c.args then Some(c.args[full])
    else if Walked(w, c.values, p).Some? then Walked(w, c.values, p)
    else Walked(w, c.args, p)
  }

  function LookupAll<V>(w: World<V>, c: Context<V>, names: seq<Path>): seq<Option<V>> {
    if names == [] then [] else [Lookup(w, c, names[0])] + LookupAll(w, c, names[1..])
  }

  const PREFIX := "__goark_orm_"

  function Sanitized(s: string): string {
    if s == "" then ""
    else
      (if 'a' <= s[0] <= 'z' || 'A' <= s[0] <= 'Z' || '0' <= s[0] <= '9' || s[0] == '_' then [s[0]] else [])
      + Sanitized(s[1..])
  }

  function Alias(name: string, n: nat): string {
    PREFIX + (if Sanitized(name) == "" then "item" else Sanitized(name)) + "_" + Itoa(n)
  }

  /** Placeholders of loop variables are renamed to their aliases. */
  function Renamed<V>(s: Sql<V>, aliases: map<string, string>): (r: Sql<V>)
    ensures |r| == |s|
  {
    seq(|s|, i requires 0 <= i < |s| => RenamedSym(s[i], aliases))
  }

  function RenamedSym<V>(x: Sym<V>, aliases: map<string, string>): Sym<V> {
    if x.Ph? && x.root in aliases then Ph(aliases[x.root], x.tail) else x
  }

  /** A loop variable is given an alias and a value, and an argument under the alias. */
  function Entered<V>(c: Context<V>, name: string, value: V): Context<V> {
    var alias := Alias(name, c.next);
    Context(c.args[alias := value], c.aliases[name := alias], c.values[name := value], c.next + 1)
  }

  function Restored<T>(m: map<string, T>, name: string, before: map<string, T>): map<string, T> {
    if name in before then m[name := before[name]] else m - {name}
  }

  /** The scopes after an iteration: the item as before, the index alias as before, and no value for the index. */
  function Left<V>(c: Context<V>, before: Context<V>, item: string, index: string): Context<V> {
    var d := c.(aliases := Restored(c.aliases, item, before.aliases),
                values := Restored(c.values, item, before.values));
    if index == "" then d
    else
      var inner := before.aliases[item := Alias(item, before.next)];
      d.(aliases := Restored(d.aliases, index, inner), values := d.values - {index})
  }

  function ItemName(item: string): string {
    if Text.TrimSpace(item) == "" then "item" else Text.TrimSpace(item)
  }

  function Separator(s: string): string {
    if Text.TrimSpace(s) == "" then " " else Text.TrimSpace(s) + " "
  }

  type Rendered<V, E> = (Result<Sql<V>, Error<E>>, Context<V>)

  function Render<V, E>(w: World<V>, node: Node<V, E>, c: Context<V>): Rendered<V, E>
    decreases node, 1
  {
    match node
    case TextNode(text) => (Ok(Renamed(Normalized(text), c.aliases)), c)
    case If(test, children) =>
      (match test.decide(LookupAll(w, c, test.names))
       case Err(e) => (Err(Evaluation(e)), c)
       case Ok(yes) => if yes then RenderChildren(w, children, c) else (Ok([]), c))
    case Where(children) =>
      var (r, d) := RenderChildren(w, children, c);
      (if r.Err? then r else Ok(Prefixed("WHERE", RemovePrefix(Trim(r.value), ["AND", "OR"]))), d)
    case SetNode(children) =>
      var (r, d) := RenderChildren(w, children, c);
      (if r.Err? then r else Ok(Prefixed("SET", RemoveSuffix(Trim(r.value), [","]))), d)
    case TrimNode(prefix, suffix, prefixes, suffixes, children) =>
      var (r, d) := RenderChildren(w, children, c);
      (if r.Err? then r else Ok(Trimmed(prefix, suffix, prefixes, suffixes, r.value)), d)
    case Foreach(collection, item, index, open, close, separator, nullable, children) =>
      if collection.root == "" && collection.tail == "" then (Err(CollectionRequired), c)
      else
        var found := Lookup(w, c, collection);
        var kind := if found.None? then NilValue else w.elements(found.value);
        (match kind
         case NilValue =>
           (if (if nullable.Some? then nullable.value else w.nullable) then Ok([]) else Err(CollectionNil), c)
         case OtherKind => (Err(CollectionKind), c)
         case Items(items) =>
           var (r, d) := RenderItems(w, children, ItemName(item), Text.TrimSpace(index), items, 0, c);
           (match r case Err(e) => Err(e) case Ok(parts) => Ok(Looped(parts, open, close, separator)), d))
    case Choose(children) =>
      (match Chosen(w, children, 0, None, c)
       case Err(e) => (Err(e), c)
       case Ok(None) => (Ok([]), c)
       case Ok(Some(k)) => RenderChildren(w, children[k].children, c))
    case When(_, children) => RenderChildren(w, children, c)
    case Otherwise(children) => RenderChildren(w, children, c)
    case Include(_) => (Err(NotExpanded), c)
    case Bind(name, raw, value) =>
      var n := Text.TrimSpace(name);
      if n == "" then (Err(BindNameRequired), c)
      else if !ValidIdentifier(n) then (Err(BindNameInvalid), c)
      else if raw then (Err(BindRaw), c)
      else
        match value.decide(LookupAll(w, c, value.names))
        case Err(e) => (Err(Evaluation(e)), c)
        case Ok(v) => (Ok([]), c.(values := c.values[n := v], args := c.args[n := v]))
  }

  function Prefixed<V>(word: string, content: Sql<V>): Sql<V> {
    if content == [] then [] else Chars(word) + [Ch(' ')] + content
  }

  function Trimmed<V>(prefix: string, suffix: string, prefixes: seq<string>, suffixes: seq<string>, s: Sql<V>): Sql<V> {
    if s == [] then []
    else
      var content := RemoveSuffix(Trim(RemovePrefix(Trim(s), prefixes)), suffixes);
      if content == [] then []
      else Joined([Chars(Text.TrimSpace(prefix)), content, Chars(Text.TrimSpace(suffix))])
  }

  function Looped<V>(parts: seq<Sql<V>>, open: string, close: string, separator: string): Sql<V> {
    if parts == [] then [] else Trim(Chars(open) + JoinedWith(parts, Separator(separator)) + Chars(close))
  }

  function RenderChildren<V, E>(w: World<V>, nodes: seq<Node<V, E>>, c: Context<V>): Rendered<V, E>
    decreases nodes, 2
  {
    var (r, d) := RenderNodes(w, nodes, c);
    (match r case Err(e) => Err(e) case Ok(parts) => Ok(Joined(parts)), d)
  }

  /** The fragments of some nodes that are not empty, in order. */
  function RenderNodes<V, E>(w: World<V>, nodes: seq<Node<V, E>>, c: Context<V>)
    : (Result<seq<Sql<V>>, Error<E>>, Context<V>)
    decreases nodes, 1
  {
    if nodes == [] then (Ok([]), c)
    else
      var (r, d) := Render(w, nodes[0], c);
      match r
      case Err(e) => (Err(e), d)
      case Ok(first) =>
        var (rest, f) := RenderNodes(w, nodes[1..], d);
        (match rest case Err(e) => Err(e) case Ok(parts) => Ok((if first == [] then [] else [first]) + parts), f)
  }

  /** The iterations of a loop over the items from the i-th on. */
  function RenderItems<V, E>(w: World<V>, children: seq<Node<V, E>>, item: string, index: string, items: seq<V>, i: nat,
                             c: Context<V>)
    : (Result<seq<Sql<V>>, Error<E>>, Context<V>)
    requires i <= |items|
    decreases children, 3, |items| - i
  {
    if i == |items| then (Ok([]), c)
    else
      var inner := Entered(c, item, items[i]);
      var scope := if index == "" then inner else Entered(inner, index, w.ofIndex(i));
      var (r, d) := RenderChildren(w, children, scope);
      var after := Left(d, c, item, index);
      match r
      case Err(e) => (Err(e), after)
      case Ok(first) =>
        var (rest, f) := RenderItems(w, children, item, index, items, i + 1, after);
        (match rest case Err(e) => Err(e) case Ok(parts) => Ok((if first == [] then [] else [first]) + parts), f)
  }

  /**
   The first branch whose test holds, or the last otherwise before it; any other node is refused when it is reached.
   */
  function Chosen<V, E>(w: World<V>, branches: seq<Node<V, E>>, i: nat, otherwise: Option<nat>, c: Context<V>)
    : (r: Result<Option<nat>, Error<E>>)
    requires i <= |branches| && (otherwise.Some? ==> otherwise.value < i && branches[otherwise.value].Otherwise?)
    ensures r.Ok? && r.value.Some? ==>
              r.value.value < |branches| && (branches[r.value.value].When? || branches[r.value.value].Otherwise?)
    decreases |branches| - i
  {
    if i == |branches| then Ok(otherwise)
    else
      match branches[i]
      case When(test, _) =>
        (match test.decide(LookupAll(w, c, test.names))
         case Err(e) => Err(Evaluation(e))
         case Ok(yes) => if yes then Ok(Some(i)) else Chosen(w, branches, i + 1, otherwise, c))
      case Otherwise(_) => Chosen(w, branches, i + 1, Some(i), c)
      case _ => Err(ChooseKind)
  }
}
