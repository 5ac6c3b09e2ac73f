/** The expansion of include nodes in ormgen/xml.go, on the node trees that the renderer takes. */
module Includes {
  import opened Dynamic
  import opened Prelude
  import Text

  datatype IncludeError = MissingRefId | Cycle(refId: string) | NotFound(refId: string)

  type Nodes<!V, +E> = seq<Node<V, E>>

  type Fragments<!V, +E> = map<string, Nodes<V, E>>

  function ChildrenOf<V, E>(node: Node<V, E>): (r: Nodes<V, E>)
  {
    match node
    case TextNode(_) | Include(_) | Bind(_, _, _) => []
    case _ => node.children
  }

  function WithChildren<V, E>(node: Node<V, E>, children: Nodes<V, E>): Node<V, E> {
    match node
    case TextNode(_) | Include(_) | Bind(_, _, _) => node
    case If(test, _) => If(test, children)
    case Where(_) => Where(children)
    case SetNode(_) => SetNode(children)
    case TrimNode(prefix, suffix, prefixes, suffixes, _) => TrimNode(prefix, suffix, prefixes, suffixes, children)
    case Foreach(collection, item, index, open, close, separator, nullable, _) =>
      Foreach(collection, item, index, open, close, separator, nullable, children)
    case Choose(_) => Choose(children)
    case When(test, _) => When(test, children)
    case Otherwise(_) => Otherwise(children)
  }

  function Names(stack: seq<string>): set<string> {
    set s <- stack
  }

  lemma Pushed(keys: set<string>, stack: seq<string>, id: string)
    requires id in keys && id !in stack
    ensures Names(stack + [id]) == Names(stack) + {id}
    ensures keys - Names(stack + [id]) < keys - Names(stack)
  {
    assert id in keys - Names(stack);
  }

  /** Some nodes with their includes replaced, given the fragments that are being expanded. */
  function Expand<V, E>(nodes: Nodes<V, E>, fragments: Fragments<V, E>, stack: seq<string>): Result<Nodes<V, E>,
    IncludeError>
    decreases fragments.Keys - Names(stack), nodes, 1
  {
    if nodes == [] then Ok([])
    else
      match ExpandNode(nodes[0], fragments, stack)
      case Err(e) => Err(e)
      case Ok(first) =>
        match Expand(nodes[1..], fragments, stack)
        case Err(e) => Err(e)
        case Ok(rest) => Ok(first + rest)
  }

  function ExpandNode<V, E>(node: Node<V, E>, fragments: Fragments<V, E>, stack: seq<string>): Result<Nodes<V, E>,
    IncludeError>
    decreases fragments.Keys - Names(stack), node, 0
  {
    if node.Include? then
      var id := Text.TrimSpace(node.refId);
      if id == "" then Err(MissingRefId)
      else if id in stack then Err(Cycle(id))
      else if id !in fragments then Err(NotFound(id))
      else
        Pushed(fragments.Keys, stack, id);
        Expand(fragments[id], fragments, stack + [id])
    else if ChildrenOf(node) == [] then Ok([node])
    else
      match Expand(ChildrenOf(node), fragments, stack)
      case Err(e) => Err(e)
      case Ok(children) => Ok([WithChildren(node, children)])
  }

  lemma ExpandUnfold<V, E>(nodes: Nodes<V, E>, fragments: Fragments<V, E>, stack: seq<string>)
    requires nodes != []
    ensures var first, rest := ExpandNode(nodes[0], fragments, stack), Expand(nodes[1..], fragments, stack);
            Expand(nodes, fragments, stack)
              == if first.Err? then Err(first.error) else if rest.Err? then rest else Ok(first.value + rest.value)
  {
    hide ExpandNode;
  }

  function Prepended<V, E>(out: Nodes<V, E>, r: Result<Nodes<V, E>, IncludeError>): Result<Nodes<V, E>, IncludeError> {
    match r case Err(e) => Err(e) case Ok(more) => Ok(out + more)
  }

  lemma PrependedMore<V, E>(out: Nodes<V, E>, first: Nodes<V, E>, r: Result<Nodes<V, E>, IncludeError>)
    ensures Prepended(out, Prepended(first, r)) == Prepended(out + first, r)
    ensures Prepended([], r) == r
    ensures Prepended<V, E>(out, Ok([])) == Ok(out)
  {
    if r.Ok? {
      assert out + (first + r.value) == out + first + r.value;
      assert [] + r.value == r.value;
    }
    assert out + [] == out;
  }

  method ExpandDynamicIncludes<V, E>(nodes: Nodes<V, E>, fragments: Fragments<V, E>, stack: seq<string>)
    returns (r: Result<Nodes<V, E>, IncludeError>)
    ensures r == Expand(nodes, fragments, stack)
    decreases fragments.Keys - Names(stack), nodes
  {
    hide Expand, Text.TrimSpace;
    var out := [];
    ghost var all := Expand(nodes, fragments, stack);
    PrependedMore<V, E>([], [], all);
    assert nodes[0..] == nodes;
    for i := 0 to |nodes|
      invariant Prepended(out, Expand(nodes[i..], fragments, stack)) == all
    {
      var node := nodes[i];
      assert nodes[i..][0] == node && nodes[i..][1..] == nodes[i + 1..];
      ExpandUnfold(nodes[i..], fragments, stack);
      if node.Include? {
        var refId := Text.TrimSpace(node.refId);
        if refId == "" {
          return Err(MissingRefId);
        }
        if refId in stack {
          return Err(Cycle(refId));
        }
        if refId !in fragments {
          return Err(NotFound(refId));
        }
        Pushed(fragments.Keys, stack, refId);
        var expanded := ExpandDynamicIncludes(fragments[refId], fragments, stack + [refId]);
        if expanded.Err? {
          return expanded;
        }
        PrependedMore(out, expanded.value, Expand(nodes[i + 1..], fragments, stack));
        out := out + expanded.value;
        continue;
      }
      if |ChildrenOf(node)| > 0 {
        var children := ExpandDynamicIncludes(ChildrenOf(node), fragments, stack);
        if children.Err? {
          return children;
        }
        node := WithChildren(node, children.value);
      }
      PrependedMore(out, [node], Expand(nodes[i + 1..], fragments, stack));
      out := out + [node];
    }
    assert nodes[|nodes|..] == [];
    ExpandNothing<V, E>(fragments, stack);
    PrependedMore<V, E>(out, [], Ok([]));
    return Ok(out);
  }

  lemma ExpandNothing<V, E>(fragments: Fragments<V, E>, stack: seq<string>)
    ensures Expand<V, E>([], fragments, stack) == Ok([])
  {
  }

  // ---- plain substitution ----

  /** Includes replaced by their fragments, down to a depth of n fragments within each other. */
  function Substituted<V, E>(nodes: Nodes<V, E>, fragments: Fragments<V, E>, n: nat): Option<Nodes<V, E>>
    decreases n, nodes, 1
  {
    if nodes == [] then Some([])
    else
      match (SubstitutedNode(nodes[0], fragments, n), Substituted(nodes[1..], fragments, n))
      case (Some(first), Some(rest)) => Some(first + rest)
      case _ => None
  }

  function SubstitutedNode<V, E>(node: Node<V, E>, fragments: Fragments<V, E>, n: nat): Option<Nodes<V, E>>
    decreases n, node, 0
  {
    if node.Include? then
      var id := Text.TrimSpace(node.refId);
      if n == 0 || id !in fragments then None else Substituted(fragments[id], fragments, n - 1)
    else if ChildrenOf(node) == [] then Some([node])
    else
      match Substituted(ChildrenOf(node), fragments, n)
      case None => None
      case Some(children) => Some([node.(children := children)])
  }

  lemma Fewer(keys: set<string>, stack: seq<string>, id: string)
    requires id in keys && id !in stack
    ensures |keys - Names(stack + [id])| == |keys - Names(stack)| - 1
  {
    Pushed(keys, stack, id);
    assert keys - Names(stack) == (keys - Names(stack + [id])) + {id};
  }

  /** What is expanded is what substitution gives, as deep as there are fragments left. */
  lemma {:induction false} ExpandIsSubstitution<V, E>(nodes: Nodes<V, E>, fragments: Fragments<V, E>,
                                                      stack: seq<string>, n: nat)
    requires Expand(nodes, fragments, stack).Ok? && n >= |fragments.Keys - Names(stack)|
    ensures Substituted(nodes, fragments, n) == Some(Expand(nodes, fragments, stack).value)
    decreases fragments.Keys - Names(stack), nodes, 1
  {
    hide ExpandNode, SubstitutedNode, Names;
    if nodes != [] {
      NodeIsSubstitution(nodes[0], fragments, stack, n);
      ExpandIsSubstitution(nodes[1..], fragments, stack, n);
    }
  }

  lemma IncludedIds<V, E>(node: Node<V, E>, fragments: Fragments<V, E>, stack: seq<string>)
    requires node.Include? && ExpandNode(node, fragments, stack).Ok?
    ensures var id := Text.TrimSpace(node.refId);
            && id in fragments && id !in stack
               && Expand(fragments[id], fragments, stack + [id]) == ExpandNode(node, fragments, stack)
  {
    hide Expand, Text.TrimSpace, Names;
  }

  lemma {:induction false} NodeIsSubstitution<V, E>(node: Node<V, E>, fragments: Fragments<V, E>, stack: seq<string>,
                                                    n: nat)
    requires ExpandNode(node, fragments, stack).Ok? && n >= |fragments.Keys - Names(stack)|
    ensures SubstitutedNode(node, fragments, n) == Some(ExpandNode(node, fragments, stack).value)
    decreases fragments.Keys - Names(stack), node, 0, 1
  {
    hide Expand, Substituted, WithChildren, SubstitutedNode;
    if node.Include? {
      IncludeIsSubstitution(node, fragments, stack, n);
    } else if ChildrenOf(node) != [] {
      ChildrenExpanded(node, fragments, stack);
      ExpandIsSubstitution(ChildrenOf(node), fragments, stack, n);
      ChildrenSubstituted(node, fragments, n, Expand(ChildrenOf(node), fragments, stack).value);
    } else {
      LeafStays(node, fragments, stack, n);
    }
  }

  lemma LeafStays<V, E>(node: Node<V, E>, fragments: Fragments<V, E>, stack: seq<string>, n: nat)
    requires !node.Include? && ChildrenOf(node) == []
    ensures ExpandNode(node, fragments, stack) == Ok([node]) && SubstitutedNode(node, fragments, n) == Some([node])
  {
  }

  lemma ChildrenExpanded<V, E>(node: Node<V, E>, fragments: Fragments<V, E>, stack: seq<string>)
    requires !node.Include? && ChildrenOf(node) != [] && ExpandNode(node, fragments, stack).Ok?
    ensures var inner := Expand(ChildrenOf(node), fragments, stack);
            inner.Ok? && ExpandNode(node, fragments, stack) == Ok([WithChildren(node, inner.value)])
  {
    hide Expand, WithChildren, Names;
  }

  lemma ChildrenSubstituted<V, E>(node: Node<V, E>, fragments: Fragments<V, E>, n: nat, children: Nodes<V, E>)
    requires !node.Include? && ChildrenOf(node) != [] && Substituted(ChildrenOf(node), fragments, n) == Some(children)
    ensures SubstitutedNode(node, fragments, n) == Some([WithChildren(node, children)])
  {
    hide Substituted;
  }

  lemma {:induction false} IncludeIsSubstitution<V, E>(node: Node<V, E>, fragments: Fragments<V, E>, stack: seq<string>,
                                                       n: nat)
    requires node.Include? && ExpandNode(node, fragments, stack).Ok? && n >= |fragments.Keys - Names(stack)|
    ensures SubstitutedNode(node, fragments, n) == Some(ExpandNode(node, fragments, stack).value)
    decreases fragments.Keys - Names(stack), node, 0, 0
  {
    hide Expand, Substituted, Names, Text.TrimSpace, ExpandNode;
    var id := Text.TrimSpace(node.refId);
    IncludedIds(node, fragments, stack);
    Pushed(fragments.Keys, stack, id);
    Fewer(fragments.Keys, stack, id);
    ExpandIsSubstitution(fragments[id], fragments, stack + [id], n - 1);
  }

  // ---- no include is left ----

  predicate IncludeFree<V, E>(nodes: Nodes<V, E>)
    decreases nodes, 1
  {
    forall i :: 0 <= i < |nodes| ==> IncludeFreeNode(nodes[i])
  }

  predicate IncludeFreeNode<V, E>(node: Node<V, E>)
    decreases node, 0
  {
    !node.Include? && (ChildrenOf(node) == [] || IncludeFree(ChildrenOf(node)))
  }

  lemma ChildrenAreFree<V, E>(node: Node<V, E>)
    requires IncludeFreeNode(node)
    ensures IncludeFree(ChildrenOf(node))
  {
  }

  lemma WithChildrenFree<V, E>(node: Node<V, E>, children: Nodes<V, E>)
    requires !node.Include? && IncludeFree(children)
    ensures IncludeFreeNode(WithChildren(node, children))
  {
    hide IncludeFree;
  }

  lemma NoChildrenFree<V, E>(node: Node<V, E>)
    requires !node.Include? && ChildrenOf(node) == []
    ensures IncludeFreeNode(node)
  {
  }

  lemma FreeConcat<V, E>(a: Nodes<V, E>, b: Nodes<V, E>)
    requires IncludeFree(a) && IncludeFree(b)
    ensures IncludeFree(a + b)
  {
    hide IncludeFreeNode;
  }

  lemma FreeOne<V, E>(node: Node<V, E>)
    requires IncludeFreeNode(node)
    ensures IncludeFree([node])
  {
    hide IncludeFreeNode;
  }

  /** No include is left at any depth. */
  lemma {:induction false} ExpandedFree<V, E>(nodes: Nodes<V, E>, fragments: Fragments<V, E>, stack: seq<string>)
    requires Expand(nodes, fragments, stack).Ok?
    ensures IncludeFree(Expand(nodes, fragments, stack).value)
    decreases fragments.Keys - Names(stack), nodes, 1
  {
    if nodes != [] {
      ExpandUnfold(nodes, fragments, stack);
      hide Expand, ExpandNode, Names, IncludeFree;
      ExpandedNodeFree(nodes[0], fragments, stack);
      ExpandedFree(nodes[1..], fragments, stack);
      FreeConcat(ExpandNode(nodes[0], fragments, stack).value, Expand(nodes[1..], fragments, stack).value);
    }
  }

  lemma {:induction false} ExpandedNodeFree<V, E>(node: Node<V, E>, fragments: Fragments<V, E>, stack: seq<string>)
    requires ExpandNode(node, fragments, stack).Ok?
    ensures IncludeFree(ExpandNode(node, fragments, stack).value)
    decreases fragments.Keys - Names(stack), node, 0
  {
    hide Expand, Names, Text.TrimSpace, IncludeFree, IncludeFreeNode;
    if node.Include? {
      var id := Text.TrimSpace(node.refId);
      Pushed(fragments.Keys, stack, id);
      ExpandedFree(fragments[id], fragments, stack + [id]);
    } else if ChildrenOf(node) == [] {
      NoChildrenFree(node);
      FreeOne(node);
    } else {
      ExpandedFree(ChildrenOf(node), fragments, stack);
      var children := Expand(ChildrenOf(node), fragments, stack).value;
      WithChildrenFree(node, children);
      FreeOne(WithChildren(node, children));
    }
  }

  // ---- when expansion fails ----

  /** The ids that some nodes refer to, at any depth. */
  function Refs<V, E>(nodes: Nodes<V, E>): set<string>
    decreases nodes, 1
  {
    if nodes == [] then {} else NodeRefs(nodes[0]) + Refs(nodes[1..])
  }

  function NodeRefs<V, E>(node: Node<V, E>): set<string>
    decreases node, 0
  {
    if node.Include? then {Text.TrimSpace(node.refId)}
    else if ChildrenOf(node) == [] then {}
    else Refs(ChildrenOf(node))
  }

  /** Ids that refer to one another, starting with one that some nodes refer to. */
  predicate Leads<V, E>(nodes: Nodes<V, E>, fragments: Fragments<V, E>, path: seq<string>)
    decreases |path|
  {
    && path != [] && path[0] in Refs(nodes)
    && (|path| > 1 ==> path[0] in fragments && Leads(fragments[path[0]], fragments, path[1..]))
  }

  /** A path to an id that is blank, missing or already being expanded. */
  predicate BadPath<V, E>(nodes: Nodes<V, E>, fragments: Fragments<V, E>, stack: seq<string>, path: seq<string>) {
    && Leads(nodes, fragments, path)
    && var last := path[|path| - 1];
       last == "" || last !in fragments || last in stack || last in path[..|path| - 1]
  }

  /** Every id some nodes refer to is expanded with them. */
  lemma {:induction false} RefsExpanded<V, E>(nodes: Nodes<V, E>, fragments: Fragments<V, E>, stack: seq<string>,
                                              id: string)
    requires Expand(nodes, fragments, stack).Ok? && id in Refs(nodes)
    ensures id != "" && id in fragments && id !in stack && Expand(fragments[id], fragments, stack + [id]).Ok?
    decreases nodes, 1
  {
    ExpandUnfold(nodes, fragments, stack);
    hide Expand, ExpandNode;
    if id in NodeRefs(nodes[0]) {
      NodeRefsExpanded(nodes[0], fragments, stack, id);
    } else {
      RefsExpanded(nodes[1..], fragments, stack, id);
    }
  }

  lemma {:induction false} NodeRefsExpanded<V, E>(node: Node<V, E>, fragments: Fragments<V, E>, stack: seq<string>,
                                                  id: string)
    requires ExpandNode(node, fragments, stack).Ok? && id in NodeRefs(node)
    ensures id != "" && id in fragments && id !in stack && Expand(fragments[id], fragments, stack + [id]).Ok?
    decreases node, 0
  {
    hide Expand, Text.TrimSpace, Names;
    if !node.Include? { RefsExpanded(ChildrenOf(node), fragments, stack, id); }
  }

  lemma {:induction false} ExpandedNoBadPath<V, E>(nodes: Nodes<V, E>, fragments: Fragments<V, E>, stack: seq<string>,
                                                   path: seq<string>)
    requires Expand(nodes, fragments, stack).Ok?
    ensures !BadPath(nodes, fragments, stack, path)
    decreases |path|
  {
    hide Expand, Refs;
    if Leads(nodes, fragments, path) {
      RefsExpanded(nodes, fragments, stack, path[0]);
      if |path| > 1 {
        ExpandedNoBadPath(fragments[path[0]], fragments, stack + [path[0]], path[1..]);
        assert path[1..][|path| - 2] == path[|path| - 1];
        assert path[..|path| - 1] == [path[0]] + path[1..][..|path| - 2];
      }
    }
  }

  /** A path from one of some nodes, or into a fragment, is a path from the nodes. */
  lemma {:induction false} FailedBadPath<V, E>(nodes: Nodes<V, E>, fragments: Fragments<V, E>, stack: seq<string>)
    returns (path: seq<string>)
    requires Expand(nodes, fragments, stack).Err?
    ensures BadPath(nodes, fragments, stack, path)
    decreases fragments.Keys - Names(stack), nodes, 1
  {
    if nodes == [] {
      ExpandNothing<V, E>(fragments, stack);
      assert false;
    } else {
      ExpandUnfold(nodes, fragments, stack);
      hide Expand, ExpandNode, Names;
      if ExpandNode(nodes[0], fragments, stack).Err? {
        path := FailedNodeBadPath(nodes[0], fragments, stack);
        BadPathIn([nodes[0]], nodes, fragments, stack, path);
      } else {
        path := FailedBadPath(nodes[1..], fragments, stack);
        BadPathIn(nodes[1..], nodes, fragments, stack, path);
      }
    }
  }

  lemma RefsOf<V, E>(nodes: Nodes<V, E>)
    requires nodes != []
    ensures Refs(nodes) == Refs([nodes[0]]) + Refs(nodes[1..])
  {
    OneRef(nodes[0]);
    hide NodeRefs;
  }

  lemma BadPathIn<V, E>(some: Nodes<V, E>, nodes: Nodes<V, E>, fragments: Fragments<V, E>, stack: seq<string>,
                        path: seq<string>)
    requires BadPath(some, fragments, stack, path) && nodes != [] && (some == [nodes[0]] || some == nodes[1..])
    ensures BadPath(nodes, fragments, stack, path)
  {
    RefsOf(nodes);
    hide Refs;
  }

  lemma {:induction false} FailedNodeBadPath<V, E>(node: Node<V, E>, fragments: Fragments<V, E>, stack: seq<string>)
    returns (path: seq<string>)
    requires ExpandNode(node, fragments, stack).Err?
    ensures BadPath([node], fragments, stack, path)
    decreases fragments.Keys - Names(stack), node, 0
  {
    hide Expand, Names, Text.TrimSpace;
    OneRef(node);
    if node.Include? {
      var id := Text.TrimSpace(node.refId);
      if id == "" || id in stack || id !in fragments {
        path := [id];
      } else {
        Pushed(fragments.Keys, stack, id);
        var rest := FailedBadPath(fragments[id], fragments, stack + [id]);
        path := [id] + rest;
        LongerPath([node], fragments, stack, id, rest);
      }
    } else {
      path := FailedBadPath(ChildrenOf(node), fragments, stack);
      SameRefs(ChildrenOf(node), [node], fragments, stack, path);
    }
  }

  lemma OneRef<V, E>(node: Node<V, E>)
    ensures Refs([node]) == NodeRefs(node)
  {
    hide NodeRefs;
    assert [node][1..] == [];
  }

  lemma SameRefs<V, E>(some: Nodes<V, E>, nodes: Nodes<V, E>, fragments: Fragments<V, E>, stack: seq<string>,
                       path: seq<string>)
    requires BadPath(some, fragments, stack, path) && Refs(some) == Refs(nodes)
    ensures BadPath(nodes, fragments, stack, path)
  {
    hide Refs;
  }

  lemma LongerPath<V, E>(nodes: Nodes<V, E>, fragments: Fragments<V, E>, stack: seq<string>, id: string,
                         rest: seq<string>)
    requires id in Refs(nodes) && id in fragments && BadPath(fragments[id], fragments, stack + [id], rest)
    ensures BadPath(nodes, fragments, stack, [id] + rest)
  {
    hide Refs;
    var path := [id] + rest;
    assert path[1..] == rest;
    assert path[..|path| - 1] == [id] + rest[..|rest| - 1];
  }

  /** Expansion fails exactly when a blank, missing or circular reference can be reached. */
  lemma ExpansionFails<V, E>(nodes: Nodes<V, E>, fragments: Fragments<V, E>)
    ensures Expand(nodes, fragments, []).Err? <==> exists path :: BadPath(nodes, fragments, [], path)
  {
    hide Expand, BadPath;
    if Expand(nodes, fragments, []).Err? {
      var path := FailedBadPath(nodes, fragments, []);
    } else {
      forall path
        ensures !BadPath(nodes, fragments, [], path)
      {
        ExpandedNoBadPath(nodes, fragments, [], path);
      }
    }
  }

  /** Otherwise the result is the full substitution, however deep it is allowed to go, and holds no include. */
  lemma ExpansionSubstitutes<V, E>(nodes: Nodes<V, E>, fragments: Fragments<V, E>, n: nat)
    requires Expand(nodes, fragments, []).Ok? && n >= |fragments|
    ensures Substituted(nodes, fragments, n) == Some(Expand(nodes, fragments, []).value)
    ensures IncludeFree(Expand(nodes, fragments, []).value)
  {
    hide Expand, Substituted, IncludeFree;
    assert fragments.Keys - Names([]) == fragments.Keys && |fragments.Keys| == |fragments|;
    ExpandIsSubstitution(nodes, fragments, [], n);
    ExpandedFree(nodes, fragments, []);
  }

  // ---- rendering expanded trees ----

  /** The renderer never finds an include in a tree without includes. */
  lemma {:induction false} RenderFree<V, E>(w: World<V>, node: Node<V, E>, c: Context<V>)
    requires IncludeFreeNode(node)
    ensures Render(w, node, c).0 != Err(NotExpanded)
    decreases node, 1, 0
  {
    hide RenderChildren, RenderItems, IncludeFree, LookupAll, Lookup, Chosen, Trim, RemovePrefix, RemoveSuffix,
         Prefixed, Trimmed, Looped, Renamed, Normalized, Text.TrimSpace, ItemName, ValidIdentifier;
    ChildrenAreFree(node);
    match node
    case If(_, children) => ChildrenFree(w, children, c);
    case Where(children) => ChildrenFree(w, children, c);
    case SetNode(children) => ChildrenFree(w, children, c);
    case TrimNode(_, _, _, _, children) => ChildrenFree(w, children, c);
    case When(_, children) => ChildrenFree(w, children, c);
    case Otherwise(children) => ChildrenFree(w, children, c);
    case Choose(children) => ChooseFree(w, node, c);
    case Foreach(collection, item, index, _, _, _, _, children) => {
      var found := Lookup(w, c, collection);
      if found.Some? && w.elements(found.value).Items? {
        LoopFree(w, children, ItemName(item), Text.TrimSpace(index), w.elements(found.value).items, 0, c);
      }
    }
    case _ =>
  }

  lemma {:induction false} ChooseFree<V, E>(w: World<V>, node: Node<V, E>, c: Context<V>)
    requires node.Choose? && IncludeFreeNode(node)
    ensures Render(w, node, c).0 != Err(NotExpanded)
    decreases node, 0, 0
  {
    hide RenderChildren, Chosen;
    ChosenKinds(w, node.children, 0, None, c);
    var k := Chosen(w, node.children, 0, None, c);
    if k.Ok? && k.value.Some? {
      var branch := node.children[k.value.value];
      assert IncludeFreeNode(branch);
      ChildrenFree(w, branch.children, c);
    }
  }

  lemma {:induction false} ChosenKinds<V, E>(w: World<V>, branches: Nodes<V, E>, i: nat, otherwise: Option<nat>,
                                             c: Context<V>)
    requires i <= |branches| && (otherwise.Some? ==> otherwise.value < i && branches[otherwise.value].Otherwise?)
    ensures Chosen(w, branches, i, otherwise, c) != Err(NotExpanded)
    decreases |branches| - i
  {
    hide LookupAll;
    if i < |branches| {
      if branches[i].When? { ChosenKinds(w, branches, i + 1, otherwise, c); }
      if branches[i].Otherwise? { ChosenKinds(w, branches, i + 1, Some(i), c); }
    }
  }

  lemma {:induction false} ChildrenFree<V, E>(w: World<V>, nodes: Nodes<V, E>, c: Context<V>)
    requires IncludeFree(nodes)
    ensures RenderChildren(w, nodes, c).0 != Err(NotExpanded)
    decreases nodes, 3, 0
  {
    hide RenderNodes, Joined, IncludeFree;
    NodesFree(w, nodes, c);
  }

  lemma {:induction false} NodesFree<V, E>(w: World<V>, nodes: Nodes<V, E>, c: Context<V>)
    requires IncludeFree(nodes)
    ensures RenderNodes(w, nodes, c).0 != Err(NotExpanded)
    decreases nodes, 2, 0
  {
    hide Render, IncludeFreeNode;
    if nodes != [] {
      RenderFree(w, nodes[0], c);
      NodesFree(w, nodes[1..], Render(w, nodes[0], c).1);
    }
  }

  lemma {:induction false} LoopFree<V, E>(w: World<V>, children: Nodes<V, E>, item: string, index: string,
                                          items: seq<V>, i: nat, c: Context<V>)
    requires IncludeFree(children) && i <= |items|
    ensures RenderItems(w, children, item, index, items, i, c).0 != Err(NotExpanded)
    decreases children, 4, |items| - i
  {
    hide RenderChildren, IncludeFree, Entered, Left;
    if i < |items| {
      var inner := Entered(c, item, items[i]);
      var scope := if index == "" then inner else Entered(inner, index, w.ofIndex(i));
      ChildrenFree(w, children, scope);
      LoopFree(w, children, item, index, items, i + 1, Left(RenderChildren(w, children, scope).1, c, item, index));
    }
  }

  /** Rendering what was expanded never fails for an include that was not. */
  lemma ExpandedTreesRender<V, E>(w: World<V>, nodes: Nodes<V, E>, fragments: Fragments<V, E>, c: Context<V>)
    requires Expand(nodes, fragments, []).Ok?
    ensures RenderChildren(w, Expand(nodes, fragments, []).value, c).0 != Err(NotExpanded)
  {
    hide Expand, RenderChildren, IncludeFree;
    ExpandedFree(nodes, fragments, []);
    ChildrenFree(w, Expand(nodes, fragments, []).value, c);
  }
}
