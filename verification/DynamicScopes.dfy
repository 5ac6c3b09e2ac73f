/** When the scopes of a rendering are put back. */
module DynamicScopes {
  import opened Dynamic
  import opened DynamicProof
  import opened Prelude
  import Text

  /** In every loop the index is not the item. */
  predicate ItemsApart<V, E>(nodes: seq<Node<V, E>>)
    decreases nodes, 1
  {
    forall i :: 0 <= i < |nodes| ==> ItemApart(nodes[i])
  }

  predicate ItemApart<V, E>(node: Node<V, E>)
    decreases node, 0
  {
    match node
    case TextNode(_) | Include(_) | Bind(_, _, _) => true
    case Foreach(_, item, index, _, _, _, _, children) =>
      (Text.TrimSpace(index) != "" ==> Text.TrimSpace(index) != ItemName(item)) && ItemsApart(children)
    case _ => ItemsApart(node.children)
  }

  /** Rendering leaves the aliases as they were, also when it fails. */
  lemma {:induction false} RenderRestores<V, E>(w: World<V>, node: Node<V, E>, c: Context<V>)
    requires ItemApart(node)
    ensures Render(w, node, c).1.aliases == c.aliases
    decreases node, 1, 0
  {
    hide RenderChildren, RenderItems, ItemsApart, LookupAll, Lookup, Chosen, Trim, RemovePrefix, RemoveSuffix,
         Prefixed, Trimmed, Looped, Renamed, Normalized, Text.TrimSpace, ItemName, ValidIdentifier;
    match node
    case If(_, children) => ChildrenRestore(w, children, c);
    case Where(children) => ChildrenRestore(w, children, c);
    case SetNode(children) => ChildrenRestore(w, children, c);
    case TrimNode(_, _, _, _, children) => ChildrenRestore(w, children, c);
    case When(_, children) => ChildrenRestore(w, children, c);
    case Otherwise(children) => ChildrenRestore(w, children, c);
    case Choose(children) => ChooseRestores(w, node, c);
    case Foreach(collection, item, index, _, _, _, _, children) => {
      var found := Lookup(w, c, collection);
      if found.Some? && w.elements(found.value).Items? {
        LoopRestores(w, children, ItemName(item), Text.TrimSpace(index), w.elements(found.value).items, 0, c);
      }
    }
    case _ =>
  }

  lemma {:induction false} ChooseRestores<V, E>(w: World<V>, node: Node<V, E>, c: Context<V>)
    requires node.Choose? && ItemApart(node)
    ensures Render(w, node, c).1.aliases == c.aliases
    decreases node, 0, 0
  {
    hide RenderChildren, Chosen;
    var k := Chosen(w, node.children, 0, None, c);
    if k.Ok? && k.value.Some? {
      assert ItemApart(node.children[k.value.value]);
      ChildrenRestore(w, node.children[k.value.value].children, c);
    }
  }

  lemma {:induction false} ChildrenRestore<V, E>(w: World<V>, nodes: seq<Node<V, E>>, c: Context<V>)
    requires ItemsApart(nodes)
    ensures RenderChildren(w, nodes, c).1.aliases == c.aliases
    decreases nodes, 3, 0
  {
    hide RenderNodes, Joined, ItemsApart;
    NodesRestore(w, nodes, c);
  }

  lemma {:induction false} NodesRestore<V, E>(w: World<V>, nodes: seq<Node<V, E>>, c: Context<V>)
    requires ItemsApart(nodes)
    ensures RenderNodes(w, nodes, c).1.aliases == c.aliases
    decreases nodes, 2, 0
  {
    hide Render, ItemApart;
    if nodes != [] {
      RenderRestores(w, nodes[0], c);
      NodesRestore(w, nodes[1..], Render(w, nodes[0], c).1);
    }
  }

  lemma {:induction false} LoopRestores<V, E>(w: World<V>, children: seq<Node<V, E>>, item: string, index: string,
                                             items: seq<V>, i: nat, c: Context<V>)
    requires ItemsApart(children) && i <= |items| && (index != "" ==> index != item)
    ensures RenderItems(w, children, item, index, items, i, c).1.aliases == c.aliases
    decreases children, 4, |items| - i
  {
    hide RenderChildren, ItemsApart, Entered, Left;
    if i < |items| {
      var scope := Iteration(w, c, item, index, items[i], i);
      ChildrenRestore(w, children, scope);
      var d := RenderChildren(w, children, scope).1;
      LeftAliases(w, c, d, item, index, items[i], i);
      LoopRestores(w, children, item, index, items, i + 1, Left(d, c, item, index));
    }
  }

  /** After an iteration the aliases are those from before exactly when the index is not the item. */
  lemma IterationRestoresIff<V>(w: World<V>, c: Context<V>, d: Context<V>, item: string, index: string, value: V,
                                i: nat)
    requires d.aliases == Iteration(w, c, item, index, value, i).aliases
    requires item in c.aliases ==> c.aliases[item] != Alias(item, c.next)
    ensures Left(d, c, item, index).aliases == c.aliases <==> index == "" || index != item
  {
    hide Alias;
    if index == "" || index != item {
      LeftAliases(w, c, d, item, index, value, i);
    } else {
      assert Left(d, c, item, index).aliases[item] == Alias(item, c.next);
    }
  }

  /** After an iteration the values are those from before exactly when no loop around has given the index a value. */
  lemma ValuesRestoredIff<V>(w: World<V>, c: Context<V>, d: Context<V>, item: string, index: string, value: V, i: nat)
    requires d.values == Iteration(w, c, item, index, value, i).values
    ensures Left(d, c, item, index).values == c.values <==> index == "" || index !in c.values
  {
    hide Alias;
    if index == "" || index !in c.values {
      assert Left(d, c, item, index).values == c.values;
    } else {
      assert index !in Left(d, c, item, index).values;
    }
  }
}
