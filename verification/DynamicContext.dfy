/**
 The rendering context of dynamic.go, which changes its arguments and scopes as it goes, proved against the functions.
 */
module DynamicContext {
  import opened Dynamic
  import opened Prelude
  import Text

  function After<V, E>(parts: seq<Sql<V>>, r: Result<seq<Sql<V>>, Error<E>>): Result<seq<Sql<V>>, Error<E>> {
    match r case Err(e) => Err(e) case Ok(more) => Ok(parts + more)
  }

  lemma AfterMore<V, E>(parts: seq<Sql<V>>, first: seq<Sql<V>>, r: Result<seq<Sql<V>>, Error<E>>)
    ensures After(parts, After(first, r)) == After(parts + first, r)
    ensures After([], r) == r
    ensures After<V, E>(parts, Ok([])) == Ok(parts)
  {
    if r.Ok? {
      assert parts + (first + r.value) == parts + first + r.value;
      assert [] + r.value == r.value;
    }
    assert parts + [] == parts;
  }

  /** A fragment that is kept unless it is empty. */
  function Kept<V>(s: Sql<V>): seq<Sql<V>> {
    if s == [] then [] else [s]
  }

  lemma NodesStep<V, E>(w: World<V>, nodes: seq<Node<V, E>>, i: nat, c: Context<V>)
    requires i < |nodes|
    ensures var (r, d) := Render(w, nodes[i], c);
            RenderNodes(w, nodes[i..], c)
            == match r
               case Err(e) => (Err(e), d)
               case Ok(s) => (After(Kept(s), RenderNodes(w, nodes[i + 1..], d).0), RenderNodes(w, nodes[i + 1..], d).1)
  {
    hide Render;
    assert nodes[i..][0] == nodes[i] && nodes[i..][1..] == nodes[i + 1..];
  }

  lemma ItemsStep<V, E>(w: World<V>, children: seq<Node<V, E>>, item: string, index: string, items: seq<V>, i: nat,
                        c: Context<V>)
    requires i < |items|
    ensures var inner := Entered(c, item, items[i]);
            var scope := if index == "" then inner else Entered(inner, index, w.ofIndex(i));
            var (r, d) := RenderChildren(w, children, scope);
            var after := Left(d, c, item, index);
            RenderItems(w, children, item, index, items, i, c)
            == match r
               case Err(e) => (Err(e), after)
               case Ok(s) =>
                 (After(Kept(s), RenderItems(w, children, item, index, items, i + 1, after).0),
                  RenderItems(w, children, item, index, items, i + 1, after).1)
  {
    hide RenderChildren, Entered, Left;
  }

  class DynamicRenderContext<V, E> {
    const w: World<V>
    var args: Values<V>
    var aliases: map<string, string>
    var values: Values<V>
    var next: nat

    constructor (w: World<V>, args: Values<V>)
      ensures this.w == w && Current() == Context(args, map[], map[], 0)
    {
      this.w := w;
      this.args := args;
      aliases := map[];
      values := map[];
      next := 0;
    }

    function Current(): Context<V>
      reads this
    {
      Context(args, aliases, values, next)
    }

    method NextAlias(name: string) returns (alias: string)
      modifies this`next
      ensures alias == Alias(name, old(next)) && next == old(next) + 1
    {
      alias := Alias(name, next);
      next := next + 1;
    }

    method LookupNames(names: seq<Path>) returns (r: seq<Option<V>>)
      ensures r == LookupAll(w, Current(), names)
    {
      hide Lookup;
      r := [];
      for i := 0 to |names|
        invariant LookupAll(w, Current(), names) == r + LookupAll(w, Current(), names[i..])
      {
        assert names[i..][1..] == names[i + 1..];
        r := r + [Lookup(w, Current(), names[i])];
      }
    }

    method RenderNodes(nodes: seq<Node<V, E>>) returns (r: Result<seq<Sql<V>>, Error<E>>)
      modifies this
      ensures (r, Current()) == Dynamic.RenderNodes(w, nodes, old(Current()))
      decreases nodes, 2
    {
      hide Dynamic.RenderNodes, Render;
      ghost var (all, end) := Dynamic.RenderNodes(w, nodes, Current());
      var out := [];
      AfterMore<V, E>([], [], all);
      assert nodes[0..] == nodes;
      for i := 0 to |nodes|
        invariant Dynamic.RenderNodes(w, nodes[i..], Current()).1 == end
        invariant After(out, Dynamic.RenderNodes(w, nodes[i..], Current()).0) == all
      {
        NodesStep(w, nodes, i, Current());
        var rendered := RenderNode(nodes[i]);
        if rendered.Err? {
          return Err(rendered.error);
        }
        AfterMore(out, Kept(rendered.value), Dynamic.RenderNodes(w, nodes[i + 1..], Current()).0);
        if rendered.value != [] {
          out := out + [rendered.value];
        } else {
          assert out + [] == out;
        }
      }
      assert nodes[|nodes|..] == [];
      NoNodes<V, E>(w, Current());
      AfterMore<V, E>(out, [], Ok([]));
      return Ok(out);
    }

    method RenderChildren(nodes: seq<Node<V, E>>) returns (r: Result<Sql<V>, Error<E>>)
      modifies this
      ensures (r, Current()) == Dynamic.RenderChildren(w, nodes, old(Current()))
      decreases nodes, 3
    {
      hide Dynamic.RenderNodes, Joined;
      var fragments := RenderNodes(nodes);
      if fragments.Err? {
        return Err(fragments.error);
      }
      return Ok(Joined(fragments.value));
    }

    method RenderNode(node: Node<V, E>) returns (r: Result<Sql<V>, Error<E>>)
      modifies this
      ensures (r, Current()) == Render(w, node, old(Current()))
      decreases node, 1
    {
      hide Dynamic.RenderChildren, Dynamic.RenderItems, Chosen, Renamed, Normalized, Prefixed, Trimmed, LookupAll,
           Text.TrimSpace;
      match node {
        case TextNode(text) =>
          return Ok(Renamed(Normalized(text), aliases));
        case If(test, children) =>
          var known := LookupNames(test.names);
          var yes := test.decide(known);
          if yes.Err? {
            return Err(Evaluation(yes.error));
          }
          if !yes.value {
            return Ok([]);
          }
          r := RenderChildren(children);
        case Where(children) =>
          r := RenderChildren(children);
          if r.Ok? { r := Ok(Prefixed("WHERE", RemovePrefix(Trim(r.value), ["AND", "OR"]))); }
        case SetNode(children) =>
          r := RenderChildren(children);
          if r.Ok? { r := Ok(Prefixed("SET", RemoveSuffix(Trim(r.value), [","]))); }
        case TrimNode(prefix, suffix, prefixes, suffixes, children) =>
          r := RenderChildren(children);
          if r.Ok? { r := Ok(Trimmed(prefix, suffix, prefixes, suffixes, r.value)); }
        case Foreach(_, _, _, _, _, _, _, _) =>
          r := RenderForeach(node);
        case Choose(children) =>
          r := RenderChoose(node);
        case When(_, children) =>
          r := RenderChildren(children);
        case Otherwise(children) =>
          r := RenderChildren(children);
        case Include(_) =>
          return Err(NotExpanded);
        case Bind(_, _, _) =>
          r := RenderBind(node);
      }
    }

    method RenderBind(node: Node<V, E>) returns (r: Result<Sql<V>, Error<E>>)
      requires node.Bind?
      modifies this
      ensures (r, Current()) == Render(w, node, old(Current()))
    {
      hide LookupAll, Text.TrimSpace, ValidIdentifier;
      var name := Text.TrimSpace(node.name);
      if name == "" {
        return Err(BindNameRequired);
      }
      if !ValidIdentifier(name) {
        return Err(BindNameInvalid);
      }
      if node.raw {
        return Err(BindRaw);
      }
      var known := LookupNames(node.value.names);
      var value := node.value.decide(known);
      if value.Err? {
        return Err(Evaluation(value.error));
      }
      values := values[name := value.value];
      args := args[name := value.value];
      return Ok([]);
    }

    method RenderForeach(node: Node<V, E>) returns (r: Result<Sql<V>, Error<E>>)
      requires node.Foreach?
      modifies this
      ensures (r, Current()) == Render(w, node, old(Current()))
      decreases node, 0
    {
      hide Dynamic.RenderItems, Looped, Text.TrimSpace, ItemName, Lookup;
      if node.collection.root == "" && node.collection.tail == "" {
        return Err(CollectionRequired);
      }
      var found := Lookup(w, Current(), node.collection);
      var kind := if found.None? then NilValue else w.elements(found.value);
      if kind.NilValue? {
        var nullable := if node.nullable.Some? then node.nullable.value else w.nullable;
        if nullable {
          return Ok([]);
        }
        return Err(CollectionNil);
      }
      if kind.OtherKind? {
        return Err(CollectionKind);
      }
      var parts := RenderIterations(node.children, ItemName(node.item), Text.TrimSpace(node.index), kind.items);
      if parts.Err? {
        return Err(parts.error);
      }
      return Ok(Looped(parts.value, node.open, node.close, node.separator));
    }

    /** The loop over a collection. */
    method RenderIterations(children: seq<Node<V, E>>, itemName: string, indexName: string, items: seq<V>)
      returns (r: Result<seq<Sql<V>>, Error<E>>)
      modifies this
      ensures (r, Current()) == RenderItems(w, children, itemName, indexName, items, 0, old(Current()))
      decreases children, 5
    {
      hide RenderItems, Dynamic.RenderChildren;
      ghost var (all, end) := RenderItems(w, children, itemName, indexName, items, 0, Current());
      var out := [];
      AfterMore<V, E>([], [], all);
      for i := 0 to |items|
        invariant RenderItems(w, children, itemName, indexName, items, i, Current()).1 == end
        invariant After(out, RenderItems(w, children, itemName, indexName, items, i, Current()).0) == all
      {
        ItemsStep(w, children, itemName, indexName, items, i, Current());
        var content := RenderIteration(children, itemName, indexName, items[i], i);
        if content.Err? {
          return Err(content.error);
        }
        AfterMore(out, Kept(content.value), RenderItems(w, children, itemName, indexName, items, i + 1, Current()).0);
        if content.value != [] {
          out := out + [content.value];
        } else {
          assert out + [] == out;
        }
      }
      NoItems(w, children, itemName, indexName, items, Current());
      AfterMore<V, E>(out, [], Ok([]));
      return Ok(out);
    }

    /** One iteration: the item and the index enter the scopes and leave them again, also when there is an error. */
    method RenderIteration(children: seq<Node<V, E>>, itemName: string, indexName: string, item: V, i: nat)
      returns (r: Result<Sql<V>, Error<E>>)
      modifies this
      ensures var c := old(Current());
              var inner := Entered(c, itemName, item);
              var scope := if indexName == "" then inner else Entered(inner, indexName, w.ofIndex(i));
              var (s, d) := Dynamic.RenderChildren(w, children, scope);
              r == s && Current() == Left(d, c, itemName, indexName)
      decreases children, 4
    {
      hide Dynamic.RenderChildren, Alias, Entered, PutBackAll, Left;
      ghost var c := Current();
      var previousAlias, previousValue := Enter(itemName, item);
      var previousIndexAlias: Option<string> := None;
      if indexName != "" {
        var unused;
        previousIndexAlias, unused := Enter(indexName, w.ofIndex(i));
      }
      ghost var inner := Entered(c, itemName, item);
      r := RenderChildren(children);
      LeftIs(c, inner, Current(), itemName, indexName, item);
      Leave(itemName, indexName, previousAlias, previousValue, previousIndexAlias);
    }

    method Leave(itemName: string, indexName: string, previousAlias: Option<string>, previousValue: Option<V>,
                 previousIndexAlias: Option<string>)
      modifies this`aliases, this`values
      ensures Current() == PutBackAll(old(Current()), itemName, indexName, previousAlias, previousValue,
                                      previousIndexAlias)
    {
      hide PutBack;
      aliases := PutBack(aliases, itemName, previousAlias);
      values := PutBack(values, itemName, previousValue);
      if indexName != "" {
        aliases := PutBack(aliases, indexName, previousIndexAlias);
        values := values - {indexName};
      }
    }

    /** A loop variable gets a fresh alias; what its name stood for is kept. */
    method Enter(name: string, value: V) returns (previousAlias: Option<string>, previousValue: Option<V>)
      modifies this
      ensures Current() == Entered(old(Current()), name, value)
      ensures previousAlias == Under(old(aliases), name) && previousValue == Under(old(values), name)
    {
      hide Alias;
      var alias := NextAlias(name);
      args := args[alias := value];
      previousAlias := Under(aliases, name);
      previousValue := Under(values, name);
      aliases := aliases[name := alias];
      values := values[name := value];
    }

    method RenderChoose(node: Node<V, E>) returns (r: Result<Sql<V>, Error<E>>)
      requires node.Choose?
      modifies this
      ensures (r, Current()) == Render(w, node, old(Current()))
      decreases node, 0
    {
      hide Dynamic.RenderChildren, LookupAll;
      var otherwise: Option<nat> := None;
      for i := 0 to |node.children|
        invariant Current() == old(Current())
        invariant otherwise.Some? ==> otherwise.value < i && node.children[otherwise.value].Otherwise?
        invariant Chosen(w, node.children, 0, None, Current()) == Chosen(w, node.children, i, otherwise, Current())
      {
        var child := node.children[i];
        if child.When? {
          var known := LookupNames(child.test.names);
          var yes := child.test.decide(known);
          if yes.Err? {
            return Err(Evaluation(yes.error));
          }
          if yes.value {
            r := RenderChildren(child.children);
            return;
          }
        } else if child.Otherwise? {
          otherwise := Some(i);
        } else {
          return Err(ChooseKind);
        }
      }
      if otherwise.Some? {
        r := RenderChildren(node.children[otherwise.value].children);
        return;
      }
      return Ok([]);
    }
  }

  function Under<T>(m: map<string, T>, name: string): Option<T> {
    if name in m then Some(m[name]) else None
  }

  function PutBack<T>(m: map<string, T>, name: string, before: Option<T>): map<string, T> {
    if before.Some? then m[name := before.value] else m - {name}
  }

  function PutBackAll<V>(d: Context<V>, item: string, index: string, alias: Option<string>, value: Option<V>,
                         indexAlias: Option<string>): Context<V> {
    var a, v := PutBack(d.aliases, item, alias), PutBack(d.values, item, value);
    if index == "" then Context(d.args, a, v, d.next)
    else Context(d.args, PutBack(a, index, indexAlias), v - {index}, d.next)
  }

  lemma LeftIs<V>(c: Context<V>, inner: Context<V>, d: Context<V>, item: string, index: string, value: V)
    requires inner == Entered(c, item, value)
    ensures Left(d, c, item, index) ==
              PutBackAll(d, item, index, Under(c.aliases, item), Under(c.values, item),
                         if index == "" then None else Under(inner.aliases, index))
  {
    hide Alias;
  }

  lemma NoNodes<V, E>(w: World<V>, c: Context<V>)
    ensures Dynamic.RenderNodes<V, E>(w, [], c) == (Ok([]), c)
  {
  }

  lemma NoItems<V, E>(w: World<V>, children: seq<Node<V, E>>, item: string, index: string, items: seq<V>, c: Context<V>)
    ensures RenderItems(w, children, item, index, items, |items|, c) == (Ok([]), c)
  {
  }

  method RenderDynamicSql<V, E>(w: World<V>, nodes: seq<Node<V, E>>, args: Values<V>)
    returns (r: Result<(Sql<V>, Values<V>), Error<E>>)
    ensures var (s, d) := RenderChildren(w, nodes, Context(args, map[], map[], 0));
            r == match s case Err(e) => Err(e) case Ok(sql) => Ok((sql, d.args))
  {
    hide RenderChildren;
    var c := new DynamicRenderContext<V, E>(w, args);
    var sql := c.RenderChildren(nodes);
    if sql.Err? {
      return Err(sql.error);
    }
    return Ok((sql.value, c.args));
  }
}
