/**
 Which names of loops and binds keep the meaning of a rendering, whatever else a tree holds: exactly those the main
 result asks for.
 */
module DynamicNames {
  import opened Dynamic
  import opened DynamicMeaning
  import opened DynamicProof
  import opened Prelude
  import Text

  type Tree = Node<int, int>

  type Trees = seq<Tree>

  // ---- keeping the meaning, whatever the rest of the tree is ----

  /** No white space at either end. */
  predicate Tight(name: string) {
    name != "" ==> !Text.IsSpace(name[0]) && !Text.IsSpace(name[|name| - 1])
  }

  lemma TightStays(name: string)
    ensures Tight(name) <==> Text.TrimSpace(name) == name
    ensures ItemName(name) == name <==> Tight(name) && name != ""
  {
  }

  /** A trimmed name without the prefix of aliases. */
  predicate Ordinary(name: string) {
    Tight(name) && !Reserved(name)
  }

  predicate Named(loop: Tree, item: string, index: string) {
    loop.Foreach? && ItemName(loop.item) == item && Text.TrimSpace(loop.index) == index
  }

  /** A loop with these names around a node, whose other children are as the main result asks. */
  ghost predicate Around(loop: Tree, item: string, index: string, before: Trees, node: Tree, after: Trees) {
    && Named(loop, item, index) && GoodPath(loop.collection) && loop.children == before + [node] + after
    && GoodNodes(before, Inside({}, item, index), BindsIn(loop.children))
    && GoodNodes(after, Inside({}, item, index), BindsIn(loop.children))
  }

  ghost predicate Caller(args: Values<int>) {
    forall k <- args :: !Reserved(k)
  }

  /** Every loop with these names, with anything before and after it, keeps its meaning. */
  ghost predicate LoopKeeps(item: string, index: string) {
    forall w: World<int>, loop: Tree, before: Trees, after: Trees, args: Values<int> |
      && Named(loop, item, index) && GoodPath(loop.collection)
      && GoodNodes(loop.children, Inside({}, item, index), BindsIn(loop.children))
      && GoodNodes(before, {}, {}) && GoodNodes(after, {}, {}) && Caller(args) ::
      Preserved(w, before + [loop] + after, args)
  }

  /** Every loop with an inner one of these names, with anything before, in and after that, keeps its meaning. */
  ghost predicate NestKeeps(item: string, index: string, innerItem: string, innerIndex: string) {
    forall w: World<int>, loop: Tree, before: Trees, inner: Tree, after: Trees, args: Values<int> |
      && Around(loop, item, index, before, inner, after) && Caller(args)
      && Named(inner, innerItem, innerIndex) && GoodPath(inner.collection)
      && GoodNodes(inner.children, Inside(Inside({}, item, index), innerItem, innerIndex),
                   BindsIn(loop.children) + BindsIn(inner.children)) ::
      Preserved(w, [loop], args)
  }

  /**
   Every loop in which the name is bound, to anything, and whose texts have placeholders of these roots only, keeps its
   meaning.
   */
  ghost predicate BindKeeps(item: string, index: string, name: string, roots: set<string>) {
    forall w: World<int>, loop: Tree, before: Trees, bind: Tree, after: Trees, args: Values<int> |
      && Named(loop, item, index) && GoodPath(loop.collection) && loop.children == before + [bind] + after
      && GoodNodes(before + after, Inside({}, item, index), BindsIn(before + after) - {name})
      && RootsIn(before + after) <= roots && Caller(args)
      && bind.Bind? && Text.TrimSpace(bind.name) == name && GoodPaths(bind.value.names) ::
      Preserved(w, [loop], args)
  }

  /** The roots of the placeholders in the texts of a node. */
  function Roots(node: Tree): set<string>
    decreases node, 0
  {
    match node
    case TextNode(text) => set i | 0 <= i < |text| && text[i].Ph? :: text[i].root
    case Include(_) => {}
    case Bind(_, _, _) => {}
    case _ => RootsIn(node.children)
  }

  function RootsIn(nodes: Trees): set<string>
    decreases nodes, 1
  {
    if nodes == [] then {} else Roots(nodes[0]) + RootsIn(nodes[1..])
  }

  // ---- small trees ----

  const ONE_ITEM: World<int> := World((v, tail) => None, v => Items([v]), i => i, true)

  const LETTER: Sql<int> := [Ch('x')]

  const NINE: Expr<int, int, int> := Expr([], (values: seq<Option<int>>) => Ok(9))

  function Sees(name: string, value: int): Expr<int, bool, int> {
    Expr([Path(name, "")], (values: seq<Option<int>>) => Ok(|values| > 0 && values[0] == Some(value)))
  }

  /** A letter that is written when a name has a value. */
  function Shown(name: string, value: int): Tree {
    If(Sees(name, value), [TextNode(LETTER)])
  }

  function Loop(list: string, item: string, index: string, children: Trees): Tree {
    Foreach(Path(list, ""), item, index, "", "", "", None, children)
  }

  /** A fragment of one symbol that is not white space, or of none. */
  predicate Short(s: Sql<int>) {
    s == [] || (|s| == 1 && !IsBlank(s[0]))
  }

  lemma ShortStays(s: Sql<int>)
    requires Short(s)
    ensures Trim(s) == s && Joined(if s == [] then [] else [s]) == s
    ensures Looped(if s == [] then [] else [s], "", "", "") == s
    ensures s != [] && s[0] != Ch('\n') ==> Normalized(s) == s
  {
    if s != [] {
      assert s[1..] == [] && [s][1..] == [];
      assert Trim(s) == s;
      assert Joined([s]) == s;
      assert Chars<int>("") == [] && [] + s + [] == s;
    }
  }

  // ---- rendering them ----

  lemma RenderNil(w: World<int>, c: Context<int>)
    ensures RenderNodes<int, int>(w, [], c) == (Ok([]), c) && RenderChildren<int, int>(w, [], c) == (Ok([]), c)
  {
  }

  lemma RenderCons(w: World<int>, node: Tree, rest: Trees, c: Context<int>)
    requires Render(w, node, c).0.Ok? && RenderNodes(w, rest, Render(w, node, c).1).0.Ok?
    ensures var (r, d) := Render(w, node, c); var (parts, f) := RenderNodes(w, rest, d);
            RenderNodes(w, [node] + rest, c) == (Ok((if r.value == [] then [] else [r.value]) + parts.value), f)
  {
    hide Render;
    assert ([node] + rest)[1..] == rest;
  }

  lemma RenderOne(w: World<int>, a: Tree, c: Context<int>, d: Context<int>, s: Sql<int>)
    requires Render(w, a, c) == (Ok(s), d) && Short(s)
    ensures RenderNodes(w, [a], c) == (Ok(if s == [] then [] else [s]), d)
    ensures RenderChildren(w, [a], c) == (Ok(s), d)
  {
    hide Render, Joined, RenderNodes;
    RenderNil(w, d);
    RenderCons(w, a, [], c);
    ShortStays(s);
    assert [a] + [] == [a];
    var parts: seq<Sql<int>> := if s == [] then [] else [s];
    assert parts + [] == parts;
  }

  /** A node that writes nothing, and another one. */
  lemma RenderTwo(w: World<int>, a: Tree, b: Tree, c: Context<int>, d: Context<int>, f: Context<int>, s: Sql<int>)
    requires Render(w, a, c) == (Ok([]), d) && Render(w, b, d) == (Ok(s), f) && Short(s)
    ensures RenderChildren(w, [a, b], c) == (Ok(s), f)
  {
    hide Render, Joined, RenderNodes;
    RenderOne(w, b, d, f, s);
    RenderCons(w, a, [b], c);
    ShortStays(s);
    assert [a] + [b] == [a, b];
    var parts: seq<Sql<int>> := if s == [] then [] else [s];
    assert [] + parts == parts;
  }

  /** A loop over one element. */
  lemma RenderLoop(list: string, item: string, index: string, children: Trees, c: Context<int>, d: Context<int>,
                   s: Sql<int>)
    requires list != "" && list in c.args && list !in c.values && Tight(item) && item != ""
             && Tight(index)
    requires RenderChildren(ONE_ITEM, children, Iteration(ONE_ITEM, c, item, index, c.args[list], 0)) == (Ok(s), d)
             && Short(s)
    ensures Render(ONE_ITEM, Loop(list, item, index, children), c) == (Ok(s), Left(d, c, item, index))
  {
    hide RenderChildren, Entered, Left, Text.TrimSpace, ItemName, Looped;
    TightStays(item);
    TightStays(index);
    var after := Left(d, c, item, index);
    var v := c.args[list];
    assert list + "" == list;
    assert RenderItems(ONE_ITEM, children, item, index, [v], 1, after) == (Ok([]), after);
    var parts: seq<Sql<int>> := if s == [] then [] else [s];
    assert parts + [] == parts;
    assert RenderItems(ONE_ITEM, children, item, index, [v], 0, c) == (Ok(parts), after);
    ShortStays(s);
  }

  lemma RenderLetter(c: Context<int>)
    ensures RenderChildren<int, int>(ONE_ITEM, [TextNode(LETTER)], c) == (Ok(LETTER), c)
  {
    hide Renamed, Normalized;
    ShortStays(LETTER);
    LetterRenamed(c.aliases);
    RenderOne(ONE_ITEM, TextNode(LETTER), c, c, LETTER);
  }

  lemma RenderShown(name: string, value: int, c: Context<int>)
    ensures Render(ONE_ITEM, Shown(name, value), c)
         == (Ok(if Lookup(ONE_ITEM, c, Path(name, "")) == Some(value) then LETTER else []), c)
  {
    hide Lookup, RenderChildren;
    assert [Path(name, "")][1..] == [];
    assert LookupAll(ONE_ITEM, c, [Path(name, "")]) == [Lookup(ONE_ITEM, c, Path(name, ""))];
    RenderLetter(c);
  }

  lemma LetterRenamed(aliases: map<string, string>)
    ensures Renamed(LETTER, aliases) == LETTER
  {
  }

  // ---- writing them directly ----

  lemma DirectNil(w: World<int>, local: set<string>, args: Values<int>, loops: Values<int>)
    ensures DirectNodes<int, int>(w, [], args, loops, local) == (Ok([]), args)
    ensures DirectChildren<int, int>(w, [], args, loops, local) == (Ok([]), args)
  {
  }

  lemma DirectCons(w: World<int>, local: set<string>, node: Tree, rest: Trees, args: Values<int>, loops: Values<int>)
    requires Direct(w, node, args, loops, local).0.Ok?
    requires DirectNodes(w, rest, Direct(w, node, args, loops, local).1, loops, local).0.Ok?
    ensures var (r, a) := Direct(w, node, args, loops, local); var (parts, b) := DirectNodes(w, rest, a, loops, local);
            DirectNodes(w, [node] + rest, args, loops, local)
            == (Ok((if r.value == [] then [] else [r.value]) + parts.value), b)
  {
    hide Direct;
    assert ([node] + rest)[1..] == rest;
  }

  lemma DirectOne(w: World<int>, local: set<string>, n: Tree, args: Values<int>, after: Values<int>, loops: Values<int>,
                  s: Sql<int>)
    requires Direct(w, n, args, loops, local) == (Ok(s), after) && Short(s)
    ensures DirectNodes(w, [n], args, loops, local) == (Ok(if s == [] then [] else [s]), after)
    ensures DirectChildren(w, [n], args, loops, local) == (Ok(s), after)
  {
    hide Direct, Joined, DirectNodes;
    DirectNil(w, local, after, loops);
    DirectCons(w, local, n, [], args, loops);
    ShortStays(s);
    assert [n] + [] == [n];
    var parts: seq<Sql<int>> := if s == [] then [] else [s];
    assert parts + [] == parts;
  }

  lemma DirectTwo(w: World<int>, local: set<string>, m: Tree, n: Tree, args: Values<int>, a: Values<int>,
                  b: Values<int>, loops: Values<int>, s: Sql<int>)
    requires Direct(w, m, args, loops, local) == (Ok([]), a) && Direct(w, n, a, loops, local) == (Ok(s), b) && Short(s)
    ensures DirectChildren(w, [m, n], args, loops, local) == (Ok(s), b)
  {
    hide Direct, Joined, DirectNodes;
    DirectOne(w, local, n, a, b, loops, s);
    DirectCons(w, local, m, [n], args, loops);
    ShortStays(s);
    assert [m] + [n] == [m, n];
    var parts: seq<Sql<int>> := if s == [] then [] else [s];
    assert [] + parts == parts;
  }

  lemma DirectLoop(local: set<string>, list: string, item: string, index: string, children: Trees, args: Values<int>,
                   after: Values<int>, loops: Values<int>, s: Sql<int>)
    requires list != "" && list in args && list !in loops && Tight(item) && item != "" && Tight(index)
    requires DirectChildren(ONE_ITEM, children, args, Scope(ONE_ITEM, loops, item, index, args[list], 0),
                            local + BindsIn(children))
             == (Ok(s), after)
    requires Short(s)
    ensures Direct(ONE_ITEM, Loop(list, item, index, children), args, loops, local) == (Ok(s), after)
  {
    hide DirectChildren, Scope, Text.TrimSpace, ItemName, Looped;
    TightStays(item);
    TightStays(index);
    var v := args[list];
    var inner := local + BindsIn(children);
    assert list + "" == list;
    assert DirectItems(ONE_ITEM, children, item, index, [v], 1, after, loops, inner) == (Ok([]), after);
    var parts: seq<Sql<int>> := if s == [] then [] else [s];
    assert parts + [] == parts;
    assert DirectItems(ONE_ITEM, children, item, index, [v], 0, args, loops, inner) == (Ok(parts), after);
    ShortStays(s);
  }

  lemma DirectLetter(local: set<string>, args: Values<int>, loops: Values<int>)
    ensures DirectChildren<int, int>(ONE_ITEM, [TextNode(LETTER)], args, loops, local) == (Ok(LETTER), args)
  {
    hide Filled, Normalized;
    ShortStays(LETTER);
    LetterFilled(args, loops, local);
    DirectOne(ONE_ITEM, local, TextNode(LETTER), args, args, loops, LETTER);
  }

  lemma DirectShown(local: set<string>, name: string, value: int, args: Values<int>, loops: Values<int>)
    ensures Direct(ONE_ITEM, Shown(name, value), args, loops, local)
         == (Ok(if DirectLookup(ONE_ITEM, args, loops, Path(name, "")) == Some(value) then LETTER else []), args)
  {
    hide DirectLookup, DirectChildren;
    assert [Path(name, "")][1..] == [];
    assert DirectLookups(ONE_ITEM, args, loops, [Path(name, "")])
           == [DirectLookup(ONE_ITEM, args, loops, Path(name, ""))];
    DirectLetter(local, args, loops);
  }

  lemma LetterFilled(args: Values<int>, loops: Values<int>, local: set<string>)
    ensures Filled(ONE_ITEM, LETTER, args, loops, local) == LETTER
  {
  }

  // ---- names and scopes ----

  /** A name of a list that is none of these names, and no alias. */
  function ListName(a: string, b: string, c: string, d: string): (r: string)
    ensures r != a && r != b && r != c && r != d && r != "" && !Reserved(r)
  {
    var r := "l" + a + b + c + d;
    assert r[0] == 'l' && |r| > |a| && |r| > |b| && |r| > |c| && |r| > |d|;
    r
  }

  lemma IterationIs(c: Context<int>, item: string, index: string, value: int, n: string)
    requires !Reserved(n)
    ensures var s := Iteration(ONE_ITEM, c, item, index, value, 0);
            && (n in s.args <==> n in c.args) && (n in s.args ==> s.args[n] == c.args[n])
            && (index != "" && n == index ==> n in s.values && s.values[n] == 0)
            && ((index == "" || n != index) && n == item ==> n in s.values && s.values[n] == value)
            && (n != item && (index == "" || n != index) ==> (n in s.values <==> n in c.values))
  {
    hide Alias, Reserved, AliasNumber, Plain;
    AliasIs(item, c.next);
    AliasIs(index, c.next + 1);
  }

  // ---- a loop inside a loop ----

  /** An inner loop with the index of the name, and a letter after it that the name should still show. */
  function Inner(list: string, innerItem: string, name: string, value: int): Trees {
    [Loop(list, innerItem, name, []), Shown(name, value)]
  }

  /** The inner loop takes the value of its index away. */
  lemma InnerForgets(list: string, innerItem: string, name: string, value: int,
                     c: Context<int>) returns (d: Context<int>)
    requires list != "" && !Reserved(list) && list in c.args && list !in c.values
    requires Tight(innerItem) && innerItem != "" && Ordinary(name) && name != "" && name !in c.args
    ensures RenderChildren(ONE_ITEM, Inner(list, innerItem, name, value), c) == (Ok([]), d)
  {
    hide Render, RenderChildren, Reserved, ItemName, Text.TrimSpace, Alias;
    var scope := Iteration(ONE_ITEM, c, innerItem, name, c.args[list], 0);
    d := Left(scope, c, innerItem, name);
    IterationIs(c, innerItem, name, c.args[list], name);
    RenderNil(ONE_ITEM, scope);
    RenderLoop(list, innerItem, name, [], c, scope, []);
    assert name + "" == name;
    assert Lookup(ONE_ITEM, d, Path(name, "")) == None;
    RenderShown(name, value, d);
    RenderTwo(ONE_ITEM, Loop(list, innerItem, name, []), Shown(name, value), c, d, d, []);
  }

  lemma InnerRemembers(local: set<string>, list: string, innerItem: string, name: string, value: int, args: Values<int>,
                       loops: Values<int>)
    requires list != "" && list in args && list !in loops
    requires Tight(innerItem) && innerItem != "" && Ordinary(name) && name in loops && loops[name] == value
    ensures DirectChildren(ONE_ITEM, Inner(list, innerItem, name, value), args, loops, local) == (Ok(LETTER), args)
  {
    hide Direct, DirectChildren, Reserved, ItemName, Text.TrimSpace, Scope;
    DirectNil(ONE_ITEM, local + BindsIn<int, int>([]), args, Scope(ONE_ITEM, loops, innerItem, name, args[list], 0));
    DirectLoop(local, list, innerItem, name, [], args, args, loops, []);
    assert name + "" == name;
    DirectShown(local, name, value, args, loops);
    DirectTwo(ONE_ITEM, local, Loop(list, innerItem, name, []), Shown(name, value), args, args, args, loops, LETTER);
  }

  /** A loop in which an inner loop uses the item or the index as its own index: the letter after it is lost. */
  lemma NestLoses(item: string, index: string, innerItem: string, name: string)
    requires Ordinary(item) && Ordinary(index) && Ordinary(innerItem) && Ordinary(name)
    requires item != "" && innerItem != "" && (index != "" ==> index != item)
    requires name != "" && (name == item || name == index)
    ensures var list := ListName(item, index, innerItem, name);
            var value := if name == index then 0 else 7;
            var tree := [Loop(list, item, index, Inner(list, innerItem, name, value))];
            && RenderChildren(ONE_ITEM, tree, Start(map[list := 7])).0 == Ok([])
            && DirectChildren(ONE_ITEM, tree, map[list := 7], map[], {}).0 == Ok(LETTER)
  {
    hide RenderChildren, DirectChildren, Render, Direct, Reserved, ItemName, Text.TrimSpace, Left, Alias, ListName;
    var list := ListName(item, index, innerItem, name);
    var value := if name == index then 0 else 7;
    var args: Values<int> := map[list := 7];
    var none: Values<int> := map[];
    var c := Start(args);
    var children := Inner(list, innerItem, name, value);
    var scope := Iteration(ONE_ITEM, c, item, index, 7, 0);
    IterationIs(c, item, index, 7, list);
    IterationIs(c, item, index, 7, name);
    var d := InnerForgets(list, innerItem, name, value, scope);
    RenderLoop(list, item, index, children, c, d, []);
    RenderOne(ONE_ITEM, Loop(list, item, index, children), c, Left(d, c, item, index), []);
    InnerRemembers({} + BindsIn(children), list, innerItem, name, value, args,
                   Scope(ONE_ITEM, none, item, index, 7, 0));
    DirectLoop({}, list, item, index, children, args, args, none, LETTER);
    DirectOne(ONE_ITEM, {}, Loop(list, item, index, children), args, args, none, LETTER);
  }

  lemma LoopIsGood(list: string, item: string, index: string, children: Trees)
    requires !Reserved(list) && Ordinary(item) && Ordinary(index) && item != ""
    ensures Named(Loop(list, item, index, children), item, index)
            && GoodPath(Loop(list, item, index, children).collection)
  {
    hide Text.TrimSpace, ItemName, Reserved;
    TightStays(item);
    TightStays(index);
    assert list + "" == list;
  }

  lemma ShownIsGood(name: string, value: int, bound: set<string>, local: set<string>)
    requires Ordinary(name)
    ensures GoodNodes([Shown(name, value)], bound, local) && GoodNodes<int, int>([], bound, local)
  {
    hide Text.TrimSpace, Reserved;
    assert name + "" == name;
    assert GoodNode<int, int>(TextNode(LETTER), bound, local);
    assert GoodNode(Shown(name, value), bound, local);
  }

  /**
   A loop inside a loop keeps its meaning, whatever both hold and whatever is around it, exactly when its index is not a
   name of the outer loop.
   */
  lemma NestKeepsIff(item: string, index: string, innerItem: string, innerIndex: string)
    requires Ordinary(item) && Ordinary(index) && Ordinary(innerItem) && Ordinary(innerIndex)
    requires item != "" && innerItem != ""
    requires (index != "" ==> index != item) && (innerIndex != "" ==> innerIndex != innerItem)
    ensures NestKeeps(item, index, innerItem, innerIndex)
            <==> innerIndex == "" || (innerIndex != item && innerIndex != index)
  {
    hide Preserved, Text.TrimSpace, ItemName, Reserved, GoodNodes, GoodPath, BindsIn;
    if innerIndex == "" || (innerIndex != item && innerIndex != index) {
      forall w: World<int>, loop: Tree, before: Trees, inner: Tree, after: Trees, args: Values<int> |
        && Around(loop, item, index, before, inner, after) && Caller(args)
        && Named(inner, innerItem, innerIndex) && GoodPath(inner.collection)
        && GoodNodes(inner.children, Inside(Inside({}, item, index), innerItem, innerIndex),
                   BindsIn(loop.children) + BindsIn(inner.children))
        ensures Preserved(w, [loop], args)
      {
        InnerIsGood(inner, innerItem, innerIndex, Inside({}, item, index), BindsIn(loop.children));
        AroundIsGood(loop, item, index, before, inner, after);
        RenderingPreservesMeaning(w, [loop], args);
      }
    } else {
      NestBreaks(item, index, innerItem, innerIndex);
    }
  }

  lemma InnerIsGood(inner: Tree, item: string, index: string, bound: set<string>, local: set<string>)
    requires Named(inner, item, index) && GoodPath(inner.collection)
    requires GoodNodes(inner.children, Inside(bound, item, index), local + BindsIn(inner.children))
    requires Ordinary(item) && Ordinary(index) && (index != "" ==> index != item && index !in bound)
    ensures GoodNode(inner, bound, local)
  {
    hide Text.TrimSpace, ItemName, Reserved;
  }

  lemma AroundIsGood(loop: Tree, item: string, index: string, before: Trees, node: Tree, after: Trees)
    requires Around(loop, item, index, before, node, after)
    requires GoodNode(node, Inside({}, item, index), BindsIn(loop.children))
    requires Ordinary(item) && Ordinary(index) && (index != "" ==> index != item)
    ensures GoodNodes([loop], {}, {})
  {
    hide Text.TrimSpace, ItemName, Reserved, GoodNode, GoodPath;
    forall n | n in loop.children
      ensures GoodNode(n, Inside({}, item, index), BindsIn(loop.children))
    {
    }
    AloneIsGood(loop, item, index);
  }

  lemma AloneIsGood(loop: Tree, item: string, index: string)
    requires Named(loop, item, index) && GoodPath(loop.collection)
    requires GoodNodes(loop.children, Inside({}, item, index), BindsIn(loop.children))
    requires Ordinary(item) && Ordinary(index) && (index != "" ==> index != item)
    ensures GoodNode(loop, {}, {}) && GoodNodes([loop], {}, {})
  {
    hide *;
    IsLoop(loop, item, index);
    NoneMore(BindsIn(loop.children));
    InnerIsGood(loop, item, index, {}, {});
    OneIsGood(loop);
  }

  lemma NoneMore(names: set<string>)
    ensures {} + names == names
  {
  }

  lemma IsLoop(loop: Tree, item: string, index: string)
    requires Named(loop, item, index)
    ensures loop.Foreach?
  {
  }

  lemma OneIsGood(node: Tree)
    requires GoodNode(node, {}, {})
    ensures GoodNodes([node], {}, {})
  {
    hide GoodNode;
  }

  lemma NestBreaks(item: string, index: string, innerItem: string, name: string)
    requires Ordinary(item) && Ordinary(index) && Ordinary(innerItem) && Ordinary(name)
    requires item != "" && innerItem != "" && (index != "" ==> index != item)
    requires name != "" && (name == item || name == index)
    ensures !NestKeeps(item, index, innerItem, name)
  {
    hide Text.TrimSpace, ItemName, Reserved, RenderChildren, DirectChildren, Denoted, ListName, GoodNode, GoodPath;
    var list := ListName(item, index, innerItem, name);
    var value := if name == index then 0 else 7;
    var loop := Loop(list, item, index, Inner(list, innerItem, name, value));
    var args: Values<int> := map[list := 7];
    NestLoses(item, index, innerItem, name);
    LoopIsGood(list, item, index, loop.children);
    LoopIsGood(list, innerItem, name, []);
    var inner := Loop(list, innerItem, name, []);
    ShownIsGood(name, value, Inside({}, item, index), BindsIn(loop.children));
    ShownIsGood(name, value, Inside(Inside({}, item, index), innerItem, name),
                BindsIn(loop.children) + BindsIn(inner.children));
    assert loop.children == [] + [inner] + [Shown(name, value)];
    assert Around(loop, item, index, [], inner, [Shown(name, value)]);
    assert !Preserved(ONE_ITEM, [loop], args);
  }

  // ---- an index that is the item ----

  function Placeholder(name: string): Tree {
    TextNode([Ph(name, "")])
  }

  /** A loop with no children, and a placeholder of its item after it. */
  function LoopThen(list: string, name: string): Trees {
    [Loop(list, name, name, []), Placeholder(name)]
  }

  /** The state after the loop: the name is still an alias of the element. */
  lemma AliasLeft(list: string, name: string, c: Context<int>)
    requires c == Start(map[list := 7]) && !Reserved(list) && name != ""
    ensures var alias := Alias(name, 0);
            var d := Left(Iteration(ONE_ITEM, c, name, name, 7, 0), c, name, name);
            d.aliases == map[name := alias] && alias in d.args && d.args[alias] == 7
  {
    hide AliasNumber, Plain, Reserved, Alias;
    AliasIs(name, 0);
    AliasIs(name, 1);
  }

  /** When the index is the item, a placeholder after the loop names the last element. */
  lemma IndexAsItemLeaks(list: string, name: string)
    requires Ordinary(name) && name != "" && list != "" && list != name && !Reserved(list)
    ensures var (r, d) := RenderChildren(ONE_ITEM, LoopThen(list, name), Start(map[list := 7]));
            r.Ok? && Denoted(ONE_ITEM, r.value, d.args) == [Val(Some(7))]
  {
    hide Render, RenderChildren, Reserved, ItemName, Text.TrimSpace, Alias, Left, Entered, Normalized;
    var c := Start(map[list := 7]);
    var scope := Iteration(ONE_ITEM, c, name, name, 7, 0);
    var d := Left(scope, c, name, name);
    AliasLeft(list, name, c);
    RenderNil(ONE_ITEM, scope);
    RenderLoop(list, name, name, [], c, scope, []);
    var s: Sql<int> := [Ph(Alias(name, 0), "")];
    PlaceholderRendered(name, d, s);
    RenderTwo(ONE_ITEM, Loop(list, name, name, []), Placeholder(name), c, d, d, s);
    assert Alias(name, 0) + "" == Alias(name, 0);
    assert Denoted(ONE_ITEM, s, d.args) == [Val(Some(7))];
  }

  lemma PlaceholderRendered(name: string, d: Context<int>, s: Sql<int>)
    requires name in d.aliases && s == [Ph(d.aliases[name], "")]
    ensures Render<int, int>(ONE_ITEM, Placeholder(name), d) == (Ok(s), d)
  {
    hide Normalized, Renamed;
    var p: Sql<int> := [Ph(name, "")];
    NormalPlaceholder(name);
    AliasPut(name, d.aliases);
  }

  lemma NormalPlaceholder(name: string)
    ensures Normalized<int>([Ph(name, "")]) == [Ph(name, "")]
  {
    hide Normalized, Joined, Trim;
    ShortStays([Ph(name, "")]);
  }

  lemma AliasPut(name: string, aliases: map<string, string>)
    requires name in aliases
    ensures Renamed<int>([Ph(name, "")], aliases) == [Ph(aliases[name], "")]
  {
  }

  lemma IndexAsItemKept(list: string, name: string)
    requires Ordinary(name) && name != "" && list != "" && list != name && !Reserved(list)
    ensures var (t, after) := DirectChildren(ONE_ITEM, LoopThen(list, name), map[list := 7], map[], {});
            t.Ok? && Denoted(ONE_ITEM, t.value, after) == [Val(None)]
  {
    hide Direct, DirectChildren, Reserved, ItemName, Text.TrimSpace, Normalized;
    var args: Values<int> := map[list := 7];
    var none: Values<int> := map[];
    DirectNil(ONE_ITEM, {} + BindsIn<int, int>([]), args, Scope(ONE_ITEM, none, name, name, 7, 0));
    DirectLoop({}, list, name, name, [], args, args, none, []);
    var s: Sql<int> := [Ph(name, "")];
    PlaceholderWritten(name, args);
    DirectTwo(ONE_ITEM, {}, Loop(list, name, name, []), TextNode(s), args, args, args, none, s);
    assert name + "" == name;
    assert Denoted(ONE_ITEM, s, args) == [Val(None)];
  }

  lemma PlaceholderWritten(name: string, args: Values<int>)
    ensures Direct<int, int>(ONE_ITEM, Placeholder(name), args, map[], {}) == (Ok([Ph(name, "")]), args)
  {
    hide Normalized, Filled;
    ShortStays([Ph(name, "")]);
    NothingFilled([Ph(name, "")], args);
  }

  lemma NothingFilled(s: Sql<int>, args: Values<int>)
    ensures Filled(ONE_ITEM, s, args, map[], {}) == s
  {
  }

  /** A loop keeps its meaning, whatever it holds and whatever is around it, exactly when its index is not its item. */
  lemma LoopKeepsIff(item: string, index: string)
    requires Ordinary(item) && Ordinary(index) && item != ""
    ensures LoopKeeps(item, index) <==> index == "" || index != item
  {
    hide Preserved, Text.TrimSpace, ItemName, Reserved;
    if index == "" || index != item {
      forall w: World<int>, loop: Tree, before: Trees, after: Trees, args: Values<int> |
        && Named(loop, item, index) && GoodPath(loop.collection)
        && GoodNodes(loop.children, Inside({}, item, index), BindsIn(loop.children))
        && GoodNodes(before, {}, {}) && GoodNodes(after, {}, {}) && Caller(args)
        ensures Preserved(w, before + [loop] + after, args)
      {
        AloneIsGood(loop, item, index);
        GoodAround(before, loop, after);
        RenderingPreservesMeaning(w, before + [loop] + after, args);
      }
    } else {
      LoopBreaks(item);
    }
  }

  lemma GoodAround(before: Trees, loop: Tree, after: Trees)
    requires GoodNodes(before, {}, {}) && GoodNodes(after, {}, {}) && GoodNode(loop, {}, {})
    ensures GoodNodes(before + [loop] + after, {}, {})
  {
    hide GoodNode;
  }

  lemma LoopBreaks(name: string)
    requires Ordinary(name) && name != ""
    ensures !LoopKeeps(name, name)
  {
    hide Text.TrimSpace, ItemName, Reserved, RenderChildren, DirectChildren, Denoted, ListName, GoodPath;
    var list := ListName(name, name, name, name);
    var args: Values<int> := map[list := 7];
    var loop := Loop(list, name, name, []);
    var after: Trees := [Placeholder(name)];
    IndexAsItemLeaks(list, name);
    IndexAsItemKept(list, name);
    LoopIsGood(list, name, name, []);
    ShownIsGood(name, 0, Inside({}, name, name), BindsIn(loop.children));
    ShownIsGood(name, 0, {}, {});
    assert GoodNode<int, int>(after[0], {}, {});
    assert LoopThen(list, name) == [] + [loop] + after;
    assert !Preserved(ONE_ITEM, [] + [loop] + after, args);
  }

  // ---- a bind inside a loop ----

  /** A bind of a name to 9, and a letter that shows whether the name is 9. */
  function BindThen(name: string): Trees {
    [Bind(name, false, NINE), Shown(name, 9)]
  }

  lemma BindSeen(item: string, index: string, name: string)
    requires Ordinary(item) && Ordinary(index) && Ordinary(name) && ValidIdentifier(name)
    requires item != "" && (index != "" ==> index != item)
    ensures var list := ListName(item, index, name, name);
            RenderChildren(ONE_ITEM, [Loop(list, item, index, BindThen(name))], Start(map[list := 7])).0 == Ok(LETTER)
  {
    hide RenderChildren, Render, Reserved, ItemName, Text.TrimSpace, Left, Alias, ListName, ValidIdentifier, Entered;
    var list := ListName(item, index, name, name);
    var args: Values<int> := map[list := 7];
    var c := Start(args);
    var scope := Iteration(ONE_ITEM, c, item, index, 7, 0);
    var d := Bound(scope, name, 9);
    NineBound(name, scope);
    RenderShown(name, 9, d);
    assert name + "" == name;
    assert Lookup(ONE_ITEM, d, Path(name, "")) == Some(9);
    RenderTwo(ONE_ITEM, Bind(name, false, NINE), Shown(name, 9), scope, d, d, LETTER);
    RenderLoop(list, item, index, BindThen(name), c, d, LETTER);
    RenderOne(ONE_ITEM, Loop(list, item, index, BindThen(name)), c, Left(d, c, item, index), LETTER);
  }

  lemma BindUnseen(item: string, index: string, name: string)
    requires Ordinary(item) && Ordinary(index) && Ordinary(name) && ValidIdentifier(name)
    requires item != "" && (index != "" ==> index != item) && (name == item || name == index)
    ensures var list := ListName(item, index, name, name);
            DirectChildren(ONE_ITEM, [Loop(list, item, index, BindThen(name))], map[list := 7], map[], {}).0 == Ok([])
  {
    hide DirectChildren, Direct, Reserved, ItemName, Text.TrimSpace, ListName, ValidIdentifier;
    NotEmpty(name);
    var list := ListName(item, index, name, name);
    var args: Values<int> := map[list := 7];
    var none: Values<int> := map[];
    var loops := Scope(ONE_ITEM, none, item, index, 7, 0);
    var after := args[name := 9];
    var local := {} + BindsIn(BindThen(name));
    NineWritten(name, args, loops, local);
    DirectShown(local, name, 9, after, loops);
    assert name + "" == name;
    assert DirectLookup(ONE_ITEM, after, loops, Path(name, "")) == Some(loops[name]);
    DirectTwo(ONE_ITEM, local, Bind(name, false, NINE), Shown(name, 9), args, after, after, loops, []);
    DirectLoop({}, list, item, index, BindThen(name), args, after, none, []);
    DirectOne(ONE_ITEM, {}, Loop(list, item, index, BindThen(name)), args, after, none, []);
  }

  lemma NotEmpty(name: string)
    requires ValidIdentifier(name)
    ensures name != ""
  {
  }

  lemma NineBound(name: string, c: Context<int>)
    requires Ordinary(name) && ValidIdentifier(name)
    ensures Render<int, int>(ONE_ITEM, Bind(name, false, NINE), c) == (Ok([]), Bound(c, name, 9))
  {
    TightStays(name);
  }

  lemma NineWritten(name: string, args: Values<int>, loops: Values<int>, local: set<string>)
    requires Ordinary(name) && ValidIdentifier(name)
    ensures Direct<int, int>(ONE_ITEM, Bind(name, false, NINE), args, loops, local) == (Ok([]), args[name := 9])
  {
    TightStays(name);
  }

  // ---- a placeholder of a name bound in the loop ----

  const TWO_ITEMS: World<int> := World((v, tail) => None, v => Items([1, 2]), i => i, true)

  /** A bind of a name to the element, and a placeholder of the name. */
  function BindElement(item: string, name: string): Trees {
    [Bind(name, false, Expr([Path(item, "")], (values: seq<Option<int>>) => Ok(Element(values)))),
     Placeholder(name)]
  }

  function Element(values: seq<Option<int>>): int {
    if |values| > 0 && values[0].Some? then values[0].value else 0
  }

  /** One iteration writes the placeholder and binds the name to its element. */
  lemma ElementRendered(c: Context<int>, item: string, index: string, name: string, value: int, i: nat)
    requires Ordinary(item) && Ordinary(name) && ValidIdentifier(name) && name != item && name != index
    requires (index != "" ==> index != item) && name !in c.aliases
    ensures var scope := Iteration(TWO_ITEMS, c, item, index, value, i);
            RenderChildren(TWO_ITEMS, BindElement(item, name), scope)
            == (Ok([Ph(name, "")]), Bound(scope, name, value))
  {
    hide Alias, Reserved, Normalized, Text.TrimSpace, RenderChildren, ValidIdentifier, Renamed, Render;
    var scope := Iteration(TWO_ITEMS, c, item, index, value, i);
    var d := Bound(scope, name, value);
    var children := BindElement(item, name);
    assert item in scope.values && scope.values[item] == value && name !in scope.aliases;
    ElementBound(scope, item, name);
    PlaceholderStays(name, d);
    RenderTwo(TWO_ITEMS, children[0], children[1], scope, d, d, [Ph(name, "")]);
  }

  lemma ElementBound(scope: Context<int>, item: string, name: string)
    requires Ordinary(name) && ValidIdentifier(name) && item in scope.values
    ensures Render(TWO_ITEMS, BindElement(item, name)[0], scope) == (Ok([]), Bound(scope, name, scope.values[item]))
  {
    hide Reserved, Text.TrimSpace, ValidIdentifier;
    TightStays(name);
    NotEmpty(name);
    assert item + "" == item && [Path(item, "")][1..] == [];
    assert LookupAll(TWO_ITEMS, scope, [Path(item, "")]) == [Some(scope.values[item])];
  }

  lemma PlaceholderStays(name: string, d: Context<int>)
    requires name !in d.aliases
    ensures Render<int, int>(TWO_ITEMS, Placeholder(name), d) == (Ok([Ph(name, "")]), d)
    ensures Short([Ph(name, "")])
  {
    hide Normalized, Renamed;
    NormalPlaceholder(name);
    UnnamedStays(name, d.aliases);
  }

  lemma UnnamedStays(name: string, aliases: map<string, string>)
    requires name !in aliases
    ensures var p: Sql<int> := [Ph(name, "")]; Renamed(p, aliases) == p
  {
  }

  lemma ElementWritten(args: Values<int>, loops: Values<int>, local: set<string>, item: string, name: string)
    requires Ordinary(item) && Ordinary(name) && ValidIdentifier(name)
    requires item in loops && name !in loops && name in local
    ensures DirectChildren(TWO_ITEMS, BindElement(item, name), args, loops, local)
         == (Ok([Val(Some(loops[item]))]), args[name := loops[item]])
  {
    hide Reserved, Text.TrimSpace, DirectChildren, ValidIdentifier, Direct;
    var children, after := BindElement(item, name), args[name := loops[item]];
    ElementSet(args, loops, local, item, name);
    LocalWritten(name, after, loops, local);
    DirectTwo(TWO_ITEMS, local, children[0], children[1], args, after, after, loops, [Val(Some(loops[item]))]);
  }

  lemma ElementSet(args: Values<int>, loops: Values<int>, local: set<string>, item: string, name: string)
    requires Ordinary(name) && ValidIdentifier(name) && item in loops
    ensures Direct(TWO_ITEMS, BindElement(item, name)[0], args, loops, local) == (Ok([]), args[name := loops[item]])
  {
    hide Reserved, Text.TrimSpace, ValidIdentifier;
    TightStays(name);
    NotEmpty(name);
    assert item + "" == item && [Path(item, "")][1..] == [];
    assert DirectLookups(TWO_ITEMS, args, loops, [Path(item, "")]) == [Some(loops[item])];
  }

  lemma LocalWritten(name: string, args: Values<int>, loops: Values<int>, local: set<string>)
    requires name in args && name !in loops && name in local
    ensures Direct<int, int>(TWO_ITEMS, Placeholder(name), args, loops, local) == (Ok([Val(Some(args[name]))]), args)
  {
    hide Normalized, Filled;
    NormalPlaceholder(name);
    LocalFilled(name, args, loops, local);
  }

  lemma LocalFilled(name: string, args: Values<int>, loops: Values<int>, local: set<string>)
    requires name in args && name !in loops && name in local
    ensures Filled(TWO_ITEMS, [Ph(name, "")], args, loops, local) == [Val(Some(args[name]))]
  {
    assert name + "" == name;
  }

  /** Two iterations of one symbol each. */
  function Twice(a: Sym<int>, b: Sym<int>): Sql<int> {
    [a, Ch(' '), b]
  }

  lemma TwoParts(a: Sym<int>, b: Sym<int>)
    requires !IsBlank(a) && !IsBlank(b)
    ensures Looped([[a], [b]], "", "", "") == Twice(a, b) && Joined([Twice(a, b)]) == Twice(a, b)
  {
    var parts: seq<Sql<int>> := [[a], [b]];
    assert parts[1..] == [[b]] && Separator("") == " ";
    assert JoinedWith(parts, " ") == [a] + Chars(" ") + [b];
    assert Chars<int>(" ") == [Ch(' ')] && Chars<int>("") == [];
    assert Chars<int>("") + JoinedWith(parts, " ") + Chars<int>("") == Twice(a, b);
    assert Trim(Twice(a, b)) == Twice(a, b);
  }

  /** After the loop the name has the value of the last iteration, and both placeholders stand for it. */
  lemma LastElementShown(item: string, index: string, name: string, list: string)
    requires Ordinary(item) && Ordinary(index) && Ordinary(name) && ValidIdentifier(name) && !Reserved(list)
    requires item != "" && (index != "" ==> index != item) && name != item && name != index && list != ""
    ensures var (r, d) := RenderChildren(TWO_ITEMS, [Loop(list, item, index, BindElement(item, name))],
                                         Start(map[list := 7]));
            r == Ok(Twice(Ph(name, ""), Ph(name, ""))) && name in d.args && d.args[name] == 2
  {
    hide Alias, Reserved, ItemName, Text.TrimSpace, RenderChildren, Looped, Joined, ValidIdentifier, Left, Iteration,
         BindElement;
    var c, children := Start(map[list := 7]), BindElement(item, name);
    var first := Iteration(TWO_ITEMS, c, item, index, 1, 0);
    ElementRendered(c, item, index, name, 1, 0);
    LeftAliases(TWO_ITEMS, c, Bound(first, name, 1), item, index, 1, 0);
    var m := Left(Bound(first, name, 1), c, item, index);
    var second := Iteration(TWO_ITEMS, m, item, index, 2, 1);
    ElementRendered(m, item, index, name, 2, 1);
    LeftAliases(TWO_ITEMS, m, Bound(second, name, 2), item, index, 2, 1);
    var d := Left(Bound(second, name, 2), m, item, index);
    var p: Sql<int> := [Ph(name, "")];
    TwoParts(p[0], p[0]);
    IterationUnfolds(c, item, index, 1, 0);
    IterationUnfolds(m, item, index, 2, 1);
    assert RenderItems(TWO_ITEMS, children, item, index, [1, 2], 2, d) == (Ok([]), d);
    assert [p] + [] == [p] && [p] + [p] == [p, p];
    assert RenderItems(TWO_ITEMS, children, item, index, [1, 2], 1, m) == (Ok([p]), d);
    assert RenderItems(TWO_ITEMS, children, item, index, [1, 2], 0, c) == (Ok([p, p]), d);
    LoopAlone(list, item, index, children, c, d, [p, p]);
  }

  lemma IterationUnfolds(c: Context<int>, item: string, index: string, value: int, i: nat)
    ensures var inner := Entered(c, item, value);
            Iteration(TWO_ITEMS, c, item, index, value, i)
            == if index == "" then inner else Entered(inner, index, TWO_ITEMS.ofIndex(i))
  {
  }

  /** A loop over the two elements, alone. */
  lemma LoopAlone(list: string, item: string, index: string, children: Trees, c: Context<int>, d: Context<int>,
                  parts: seq<Sql<int>>)
    requires list != "" && c == Start(map[list := 7]) && Tight(item) && item != "" && Tight(index)
    requires RenderItems(TWO_ITEMS, children, item, index, [1, 2], 0, c) == (Ok(parts), d)
    requires Looped(parts, "", "", "") != [] && Joined([Looped(parts, "", "", "")]) == Looped(parts, "", "", "")
    ensures RenderChildren(TWO_ITEMS, [Loop(list, item, index, children)], c) == (Ok(Looped(parts, "", "", "")), d)
  {
    hide RenderItems, ItemName, Text.TrimSpace, Looped, Joined, RenderNodes;
    TightStays(item);
    TightStays(index);
    assert list + "" == list;
    assert Render(TWO_ITEMS, Loop(list, item, index, children), c) == (Ok(Looped(parts, "", "", "")), d);
    RenderNil(TWO_ITEMS, d);
    RenderCons(TWO_ITEMS, Loop(list, item, index, children), [], c);
    assert [Loop(list, item, index, children)] + [] == [Loop(list, item, index, children)];
    var s := Looped(parts, "", "", "");
    assert [s] + [] == [s];
  }

  lemma EachElementWritten(item: string, index: string, name: string, list: string)
    requires Ordinary(item) && Ordinary(index) && Ordinary(name) && ValidIdentifier(name)
    requires item != "" && (index != "" ==> index != item) && name != item && name != index && list != ""
    ensures DirectChildren(TWO_ITEMS, [Loop(list, item, index, BindElement(item, name))], map[list := 7], map[], {}).0
            == Ok(Twice(Val(Some(1)), Val(Some(2))))
  {
    hide Reserved, ItemName, Text.TrimSpace, DirectChildren, Looped, Joined, ValidIdentifier;
    var args: Values<int> := map[list := 7];
    var none: Values<int> := map[];
    var children := BindElement(item, name);
    var local := {} + BindsIn(children);
    NameIsLocal(item, name);
    var a, b := args[name := 1], args[name := 1][name := 2];
    ElementWritten(args, Scope(TWO_ITEMS, none, item, index, 1, 0), local, item, name);
    ElementWritten(a, Scope(TWO_ITEMS, none, item, index, 2, 1), local, item, name);
    hide BindElement;
    var p, q: Sql<int> := [Val(Some(1))], [Val(Some(2))];
    TwoParts(p[0], q[0]);
    assert DirectItems(TWO_ITEMS, children, item, index, [1, 2], 2, b, none, local) == (Ok([]), b);
    assert [q] + [] == [q] && [p] + [q] == [p, q];
    assert DirectItems(TWO_ITEMS, children, item, index, [1, 2], 1, a, none, local) == (Ok([q]), b);
    assert DirectItems(TWO_ITEMS, children, item, index, [1, 2], 0, args, none, local) == (Ok([p, q]), b);
    DirectLoopAlone(list, item, index, children, args, b, [p, q]);
  }

  lemma NameIsLocal(item: string, name: string)
    requires Ordinary(name)
    ensures name in BindsIn(BindElement(item, name)) && BindsIn(BindElement(item, name)) == {name}
  {
    hide Text.TrimSpace, Reserved;
    TightStays(name);
    var children := BindElement(item, name);
    assert children[1..][1..] == [];
    assert BindsIn(children[1..]) == {};
  }

  lemma DirectLoopAlone(list: string, item: string, index: string, children: Trees, args: Values<int>,
                        after: Values<int>, parts: seq<Sql<int>>)
    requires list != "" && args == map[list := 7] && Tight(item) && item != "" && Tight(index)
    requires DirectItems(TWO_ITEMS, children, item, index, [1, 2], 0, args, map[], {} + BindsIn(children))
             == (Ok(parts), after)
    requires Looped(parts, "", "", "") != [] && Joined([Looped(parts, "", "", "")]) == Looped(parts, "", "", "")
    ensures DirectChildren(TWO_ITEMS, [Loop(list, item, index, children)], args, map[], {})
            == (Ok(Looped(parts, "", "", "")), after)
  {
    hide DirectItems, ItemName, Text.TrimSpace, Looped, Joined, DirectNodes;
    TightStays(item);
    TightStays(index);
    var none: Values<int> := map[];
    assert list + "" == list;
    assert Direct(TWO_ITEMS, Loop(list, item, index, children), args, none, {})
           == (Ok(Looped(parts, "", "", "")), after);
    DirectNil(TWO_ITEMS, {}, after, none);
    DirectCons(TWO_ITEMS, {}, Loop(list, item, index, children), [], args, none);
    assert [Loop(list, item, index, children)] + [] == [Loop(list, item, index, children)];
    var s := Looped(parts, "", "", "");
    assert [s] + [] == [s];
  }

  /**
   A loop over 1 and 2 that binds a name to the element and writes a placeholder of the name: the statement shows 2
   twice, and direct rendering writes 1 and 2.
   */
  lemma BindShowsLast(item: string, index: string, name: string)
    requires Ordinary(item) && Ordinary(index) && Ordinary(name) && ValidIdentifier(name)
    requires item != "" && (index != "" ==> index != item) && name != item && name != index
    ensures var list := ListName(item, index, name, name); var args: Values<int> := map[list := 7];
            var tree := [Loop(list, item, index, BindElement(item, name))];
            var (r, d) := RenderChildren(TWO_ITEMS, tree, Start(args));
            var (t, after) := DirectChildren(TWO_ITEMS, tree, args, map[], {});
            && r.Ok? && Denoted(TWO_ITEMS, r.value, d.args) == Twice(Val(Some(2)), Val(Some(2)))
            && t.Ok? && Denoted(TWO_ITEMS, t.value, after) == Twice(Val(Some(1)), Val(Some(2)))
  {
    hide Reserved, ItemName, Text.TrimSpace, RenderChildren, DirectChildren, ValidIdentifier, ListName, BindElement;
    var list := ListName(item, index, name, name);
    LastElementShown(item, index, name, list);
    EachElementWritten(item, index, name, list);
    assert name + "" == name;
  }

  // ---- which names a loop may bind ----

  lemma {:induction false} BindsConcat(a: Trees, b: Trees)
    ensures BindsIn(a + b) == BindsIn(a) + BindsIn(b) && RootsIn(a + b) == RootsIn(a) + RootsIn(b)
    decreases |a|
  {
    hide Binds, Roots;
    if a == [] {
      assert a + b == b;
    } else {
      assert (a + b)[1..] == a[1..] + b;
      BindsConcat(a[1..], b);
    }
  }

  /** Where no text has a placeholder of a name, that name may be local too. */
  lemma {:induction false} GoodWithout(node: Tree, bound: set<string>, local: set<string>, name: string)
    requires GoodNode(node, bound, local) && name !in Roots(node)
    ensures GoodNode(node, bound, local + {name})
    decreases node, 0
  {
    hide Reserved, Text.TrimSpace, ItemName, GoodPath, GoodPaths, GoodNodes, BindsIn;
    if node.TextNode? {
      TextWithout(node.text, bound, local, name);
    } else if node.Foreach? {
      var inner := Inside(bound, ItemName(node.item), Text.TrimSpace(node.index));
      var binds := BindsIn(node.children);
      GoodAllWithout(node.children, inner, local + binds, name);
      assert local + binds + {name} == local + {name} + binds;
    } else if !node.Include? && !node.Bind? {
      GoodAllWithout(node.children, bound, local, name);
    }
  }

  lemma TextWithout(text: Sql<int>, bound: set<string>, local: set<string>, name: string)
    requires GoodSql(text, local - bound) && name !in Roots(TextNode(text))
    ensures GoodSql(text, local + {name} - bound)
  {
    hide Reserved;
    forall i | 0 <= i < |text|
      ensures GoodSym(text[i], local + {name} - bound)
    {
      assert GoodSym(text[i], local - bound);
      assert text[i].Ph? ==> text[i].root in Roots(TextNode(text));
    }
  }

  lemma {:induction false} GoodAllWithout(nodes: Trees, bound: set<string>, local: set<string>, name: string)
    requires GoodNodes(nodes, bound, local) && name !in RootsIn(nodes)
    ensures GoodNodes(nodes, bound, local + {name})
    decreases nodes, 1
  {
    hide GoodNode, Roots;
    if nodes != [] {
      assert nodes[0] in nodes && forall n <- nodes[1..] :: n in nodes;
      GoodWithout(nodes[0], bound, local, name);
      GoodAllWithout(nodes[1..], bound, local, name);
    }
  }

  /**
   A loop that binds a name, whatever the expression, the collection and the rest of its body, keeps its meaning exactly
   when the name is not one of the loop and no text of the body has a placeholder with that root. The texts of the body
   may have placeholders with the given roots.
   */
  lemma BindKeepsIff(item: string, index: string, name: string, roots: set<string>)
    requires Ordinary(item) && Ordinary(index) && Ordinary(name) && ValidIdentifier(name)
    requires item != "" && (index != "" ==> index != item)
    ensures BindKeeps(item, index, name, roots) <==> name != item && name != index && name !in roots
  {
    hide Preserved, Text.TrimSpace, ItemName, Reserved, ValidIdentifier, GoodPaths, GoodNodes, GoodPath, RootsIn,
         BindsIn;
    if name == item || name == index {
      BindBreaks(item, index, name, roots);
    } else if name in roots {
      PlaceholderBreaks(item, index, name, roots);
    } else {
      forall w: World<int>, loop: Tree, before: Trees, bind: Tree, after: Trees, args: Values<int> |
        && Named(loop, item, index) && GoodPath(loop.collection) && loop.children == before + [bind] + after
        && GoodNodes(before + after, Inside({}, item, index), BindsIn(before + after) - {name})
        && RootsIn(before + after) <= roots && Caller(args)
        && bind.Bind? && Text.TrimSpace(bind.name) == name && GoodPaths(bind.value.names)
        ensures Preserved(w, [loop], args)
      {
        BindIsGood(loop, item, index, name, before, bind, after);
        RenderingPreservesMeaning(w, [loop], args);
      }
    }
  }

  lemma BindIsGood(loop: Tree, item: string, index: string, name: string, before: Trees, bind: Tree, after: Trees)
    requires Named(loop, item, index) && GoodPath(loop.collection) && loop.children == before + [bind] + after
    requires GoodNodes(before + after, Inside({}, item, index), BindsIn(before + after) - {name})
    requires bind.Bind? && Text.TrimSpace(bind.name) == name && GoodPaths(bind.value.names)
    requires Ordinary(item) && Ordinary(index) && Ordinary(name) && (index != "" ==> index != item)
    requires name != item && name != index && name !in RootsIn(before + after)
    ensures GoodNodes([loop], {}, {})
  {
    hide Text.TrimSpace, ItemName, Reserved, GoodPaths, GoodPath, GoodNode, RootsIn, BindsIn;
    var bound, others := Inside({}, item, index), BindsIn(before + after);
    BindsConcat(before, after);
    BindsConcat(before + [bind], after);
    BindsConcat(before, [bind]);
    OneBind(bind);
    assert BindsIn(loop.children) == others - {name} + {name};
    GoodAllWithout(before + after, bound, others - {name}, name);
    GoodBind(bind, bound, BindsIn(loop.children));
    forall n | n in loop.children
      ensures GoodNode(n, bound, BindsIn(loop.children))
    {
      assert n == bind || n in before + after;
    }
    AloneIsGood(loop, item, index);
  }

  lemma OneBind(bind: Tree)
    requires bind.Bind?
    ensures BindsIn([bind]) == {Text.TrimSpace(bind.name)}
  {
    assert [bind][1..] == [] && BindsIn<int, int>([]) == {};
  }

  lemma GoodBind(bind: Tree, bound: set<string>, local: set<string>)
    requires bind.Bind? && Ordinary(Text.TrimSpace(bind.name)) && Text.TrimSpace(bind.name) !in bound
    requires GoodPaths(bind.value.names)
    ensures GoodNode(bind, bound, local)
  {
  }

  lemma BindBreaks(item: string, index: string, name: string, roots: set<string>)
    requires Ordinary(item) && Ordinary(index) && Ordinary(name) && ValidIdentifier(name)
    requires item != "" && (index != "" ==> index != item) && (name == item || name == index)
    ensures !BindKeeps(item, index, name, roots)
  {
    hide Text.TrimSpace, ItemName, Reserved, RenderChildren, DirectChildren, Denoted, ListName, GoodPath,
         ValidIdentifier, GoodNode;
    TightStays(name);
    var list := ListName(item, index, name, name);
    var args: Values<int> := map[list := 7];
    var loop := Loop(list, item, index, BindThen(name));
    BindSeen(item, index, name);
    BindUnseen(item, index, name);
    LoopIsGood(list, item, index, loop.children);
    var bind: Tree := Bind(name, false, NINE);
    var after := [Shown(name, 9)];
    assert [] + after == after;
    ShownIsGood(name, 9, Inside({}, item, index), BindsIn([] + after) - {name});
    ShownRoots(name, 9);
    assert loop.children == [] + [bind] + after;
    assert GoodPaths(bind.value.names);
    assert !Preserved(ONE_ITEM, [loop], args);
  }

  lemma ShownRoots(name: string, value: int)
    ensures RootsIn([Shown(name, value)]) == {}
  {
    assert [Shown(name, value)][1..] == [] && RootsIn([]) == {};
    assert Roots(TextNode(LETTER)) == {};
    var letter: Trees := [TextNode(LETTER)];
    assert letter[1..] == [] && RootsIn(letter) == {};
  }

  lemma PlaceholderBreaks(item: string, index: string, name: string, roots: set<string>)
    requires Ordinary(item) && Ordinary(index) && Ordinary(name) && ValidIdentifier(name) && name in roots
    requires item != "" && (index != "" ==> index != item) && name != item && name != index
    ensures !BindKeeps(item, index, name, roots)
  {
    hide Text.TrimSpace, ItemName, Reserved, RenderChildren, DirectChildren, Denoted, ListName, GoodPath,
         ValidIdentifier, GoodNode;
    TightStays(name);
    var list := ListName(item, index, name, name);
    var args: Values<int> := map[list := 7];
    var loop := Loop(list, item, index, BindElement(item, name));
    BindShowsLast(item, index, name);
    LoopIsGood(list, item, index, loop.children);
    var bind, text := loop.children[0], loop.children[1];
    PlaceholderIsGood(name, Inside({}, item, index));
    assert [] + [text] == [text] && loop.children == [] + [bind] + [text];
    PathIsGood(item);
    assert !Preserved(TWO_ITEMS, [loop], args);
  }

  lemma PathIsGood(item: string)
    requires Ordinary(item)
    ensures GoodPaths([Path(item, "")])
  {
    hide Reserved, Text.TrimSpace;
    assert item + "" == item;
  }

  lemma PlaceholderIsGood(name: string, bound: set<string>)
    requires Ordinary(name)
    ensures GoodNodes([Placeholder(name)], bound, BindsIn([Placeholder(name)]) - {name})
    ensures RootsIn([Placeholder(name)]) == {name}
  {
    hide Text.TrimSpace, Reserved;
    var p: Sql<int> := [Ph(name, "")];
    var node := Placeholder(name);
    assert [node][1..] == [];
    assert Binds(node) == {} && BindsIn([node]) == {};
    assert p[0].root == name && Roots(node) == {name};
    assert RootsIn([node]) == {name};
    assert GoodSym(p[0], {} - bound);
    assert GoodNode(node, bound, {});
  }
}
