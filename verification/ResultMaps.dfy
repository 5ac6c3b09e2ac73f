/**
 The inheritance of XML resultMaps in ormgen/xml.go: memoised resolution in declaration order, compared with plainly
 following the chain of parents. Field descriptions are kept as texts; all strings are already trimmed where
 xmlResultMapMeta trims them, except for the id and the parent.
 */
module ResultMaps {
  import opened Prelude
  import Text

  datatype Discriminator = Discriminator(column: string, cases: seq<string>)

  datatype ResultMap = ResultMap(
    id: string,
    typeName: string,
    parent: string,
    autoMapping: Option<bool>,
    args: seq<string>,
    fields: seq<string>,
    associations: seq<string>,
    collections: seq<string>,
    discriminator: Discriminator)

  datatype Error = MissingId | Duplicate(id: string) | Cycle(id: string) | NotFound(id: string)

  type Models = map<string, ResultMap>

  /** The id without the prefix of its own namespace. */
  function LocalId(namespace: string, id: string): string {
    var i, n := Text.TrimSpace(id), Text.TrimSpace(namespace);
    if n != "" && n + "." <= i then i[|n| + 1..] else i
  }

  /** The parent's local id, when a parent is named. */
  function ParentOf(namespace: string, m: ResultMap): Option<string> {
    if Text.TrimSpace(m.parent) == "" then None else Some(LocalId(namespace, m.parent))
  }

  // ---- the plain chain ----

  /** The declarations from the root down to an id, found in at most n steps. */
  function Chain(namespace: string, models: Models, id: string, n: nat): Option<seq<ResultMap>>
    decreases n
  {
    if n == 0 || id !in models then None
    else
      match ParentOf(namespace, models[id])
      case None => Some([models[id]])
      case Some(parent) =>
        match Chain(namespace, models, parent, n - 1)
        case None => None
        case Some(c) => Some(c + [models[id]])
  }

  function Concat(parts: seq<seq<string>>): seq<string> {
    if parts == [] then [] else Concat(parts[..|parts| - 1]) + parts[|parts| - 1]
  }

  function Column(chain: seq<ResultMap>, f: ResultMap -> seq<string>): seq<seq<string>> {
    seq(|chain|, i requires 0 <= i < |chain| => f(chain[i]))
  }

  /** The last declaration of the chain that meets a condition, or the root. */
  function Nearest(chain: seq<ResultMap>, sets: ResultMap -> bool): (m: ResultMap)
    requires chain != []
    ensures m in chain
  {
    var last := |chain| - 1;
    if last == 0 || sets(chain[last]) then chain[last] else Nearest(chain[..last], sets)
  }

  /** No declaration from an index on meets the condition. */
  predicate NoneFrom(chain: seq<ResultMap>, i: nat, sets: ResultMap -> bool) {
    forall j :: i <= j < |chain| ==> !sets(chain[j])
  }

  lemma {:induction false} NearestIs(chain: seq<ResultMap>, sets: ResultMap -> bool)
    requires chain != []
    ensures NoneFrom(chain, 0, sets) ==> Nearest(chain, sets) == chain[0]
    ensures !NoneFrom(chain, 0, sets) ==>
              exists i :: 0 <= i < |chain| && Nearest(chain, sets) == chain[i] && sets(chain[i])
                          && NoneFrom(chain, i + 1, sets)
  {
    var last := |chain| - 1;
    if sets(chain[last]) {
      assert NoneFrom(chain, last + 1, sets);
    } else if last > 0 {
      NearestIs(chain[..last], sets);
      if !NoneFrom(chain, 0, sets) {
        assert !NoneFrom(chain[..last], 0, sets) by { hide Nearest; }
        var i :| 0 <= i < last && Nearest(chain[..last], sets) == chain[..last][i] && sets(chain[..last][i])
                 && NoneFrom(chain[..last], i + 1, sets);
        assert NoneFrom(chain, i + 1, sets);
      }
    }
  }

  predicate HasType(m: ResultMap) { m.typeName != "" }
  predicate HasAutoMapping(m: ResultMap) { m.autoMapping.Some? }
  predicate HasDiscriminator(m: ResultMap) { m.discriminator.cases != [] || m.discriminator.column != "" }

  function Args(m: ResultMap): seq<string> { m.args }
  function Fields(m: ResultMap): seq<string> { m.fields }
  function Associations(m: ResultMap): seq<string> { m.associations }
  function Collections(m: ResultMap): seq<string> { m.collections }

  /** Everything inherited along a chain from the root. */
  function Flatten(chain: seq<ResultMap>): ResultMap
    requires chain != []
  {
    var self := chain[|chain| - 1];
    ResultMap(
      self.id,
      Nearest(chain, HasType).typeName,
      self.parent,
      Nearest(chain, HasAutoMapping).autoMapping,
      Concat(Column(chain, Args)),
      Concat(Column(chain, Fields)),
      Concat(Column(chain, Associations)),
      Concat(Column(chain, Collections)),
      Nearest(chain, HasDiscriminator).discriminator)
  }

  // ---- merging ----

  function Merge(parent: ResultMap, child: ResultMap): ResultMap {
    var a := child.(
             args := parent.args + child.args,
             fields := parent.fields + child.fields,
             associations := parent.associations + child.associations,
             collections := parent.collections + child.collections);
    var b := if a.typeName == "" then a.(typeName := parent.typeName) else a;
    var c := if b.autoMapping.None? then b.(autoMapping := parent.autoMapping) else b;
    if |c.discriminator.cases| == 0
      && c.discriminator.column == "" then c.(discriminator := parent.discriminator) else c
  }

  lemma ConcatMore(chain: seq<ResultMap>, m: ResultMap, f: ResultMap -> seq<string>)
    ensures Concat(Column(chain + [m], f)) == Concat(Column(chain, f)) + f(m)
  {
    var all := Column(chain + [m], f);
    assert all[..|chain|] == Column(chain, f) && all[|chain|] == f(m);
  }

  lemma NearestMore(chain: seq<ResultMap>, m: ResultMap, sets: ResultMap -> bool)
    requires chain != []
    ensures Nearest(chain + [m], sets) == if sets(m) then m else Nearest(chain, sets)
  {
    assert (chain + [m])[..|chain|] == chain;
  }

  /** Merging a child into what its parent has inherited is inheriting along the longer chain. */
  lemma MergeIsFlatten(chain: seq<ResultMap>, child: ResultMap)
    requires chain != []
    ensures Flatten(chain + [child]) == Merge(Flatten(chain), child)
  {
    hide Nearest, Concat, Column;
    ConcatMore(chain, child, Args);
    ConcatMore(chain, child, Fields);
    ConcatMore(chain, child, Associations);
    ConcatMore(chain, child, Collections);
    NearestMore(chain, child, HasType);
    NearestMore(chain, child, HasAutoMapping);
    NearestMore(chain, child, HasDiscriminator);
    assert (chain + [child])[|chain|] == child;
  }

  lemma FlattenOne(m: ResultMap)
    ensures Flatten([m]) == m
  {
    FlattenNothing(m, Args);
    FlattenNothing(m, Fields);
    FlattenNothing(m, Associations);
    FlattenNothing(m, Collections);
  }

  lemma FlattenNothing(m: ResultMap, f: ResultMap -> seq<string>)
    ensures Concat(Column([m], f)) == f(m)
  {
    ConcatMore([], m, f);
    assert [] + [m] == [m] && Column([], f) == [];
  }

  // ---- ancestors ----

  /** The id that many parents up, whether declared or not. */
  function Ancestor(namespace: string, models: Models, id: string, k: nat): Option<string> {
    if k == 0 then Some(id)
    else
      match Ancestor(namespace, models, id, k - 1)
      case None => None
      case Some(a) => if a in models then ParentOf(namespace, models[a]) else None
  }

  /** Following parents leads to an id that is not declared, or back to an ancestor. */
  ghost predicate Broken(namespace: string, models: Models, id: string) {
    || (exists k: nat :: MissingAt(namespace, models, id, k))
    || (exists i: nat, j: nat :: RepeatsAt(namespace, models, id, i, j))
  }

  predicate MissingAt(namespace: string, models: Models, id: string, k: nat) {
    var a := Ancestor(namespace, models, id, k);
    a.Some? && a.value !in models
  }

  predicate RepeatsAt(namespace: string, models: Models, id: string, i: nat, j: nat) {
    i < j && Ancestor(namespace, models, id, i).Some?
      && Ancestor(namespace, models, id, j) == Ancestor(namespace, models, id, i)
  }

  /** One step along a chain. */
  lemma {:induction false} ChainStep(namespace: string, models: Models, id: string, n: nat)
    requires Chain(namespace, models, id, n).Some?
    ensures n > 0 && id in models
    ensures var c := Chain(namespace, models, id, n).value;
            && 0 < |c| <= n && c[|c| - 1] == models[id]
            && match ParentOf(namespace, models[id])
               case None => |c| == 1
               case Some(parent) => Chain(namespace, models, parent, n - 1) == Some(c[..|c| - 1]) && |c| > 1
    decreases n
  {
    hide ParentOf;
    var p := ParentOf(namespace, models[id]);
    if p.Some? { ChainStep(namespace, models, p.value, n - 1); }
  }

  /** The chain seen from its k-th ancestor. */
  lemma {:induction false} ChainUp(namespace: string, models: Models, id: string, n: nat, k: nat)
    requires Chain(namespace, models, id, n).Some? && Ancestor(namespace, models, id, k).Some?
    ensures var c := Chain(namespace, models, id, n).value; var a := Ancestor(namespace, models, id, k).value;
            && k < |c| <= n && a in models && Chain(namespace, models, a, n - k) == Some(c[..|c| - k])
    decreases k
  {
    hide ParentOf, Chain;
    var c := Chain(namespace, models, id, n).value;
    ChainStep(namespace, models, id, n);
    if k == 0 {
      assert c[..|c|] == c;
    } else {
      ChainUp(namespace, models, id, n, k - 1);
      var b := Ancestor(namespace, models, id, k - 1).value;
      ChainStep(namespace, models, b, n - k + 1);
      var a := Ancestor(namespace, models, id, k).value;
      ChainStep(namespace, models, a, n - k);
      assert c[..|c| - k + 1][..|c| - k] == c[..|c| - k];
    }
  }

  /** The chain does not depend on the number of steps allowed for finding it. */
  lemma {:induction false} ChainSame(namespace: string, models: Models, id: string, n: nat, m: nat)
    requires Chain(namespace, models, id, n).Some? && n <= m
    ensures Chain(namespace, models, id, m) == Chain(namespace, models, id, n)
    decreases n
  {
    hide ParentOf;
    var p := ParentOf(namespace, models[id]);
    if p.Some? { ChainSame(namespace, models, p.value, n - 1, m - 1); }
  }

  lemma ChainUnbroken(namespace: string, models: Models, id: string, n: nat)
    requires Chain(namespace, models, id, n).Some?
    ensures !Broken(namespace, models, id)
  {
    hide Chain, Ancestor;
    forall k: nat
      ensures !MissingAt(namespace, models, id, k)
    {
      if Ancestor(namespace, models, id, k).Some? { ChainUp(namespace, models, id, n, k); }
    }
    forall i: nat, j: nat
      ensures !RepeatsAt(namespace, models, id, i, j)
    {
      if RepeatsAt(namespace, models, id, i, j) {
        ChainUp(namespace, models, id, n, i);
        ChainUp(namespace, models, id, n, j);
        ChainSame(namespace, models, Ancestor(namespace, models, id, i).value, n - j, n - i);
        assert false;
      }
    }
  }

  lemma NoChainStep(namespace: string, models: Models, id: string, n: nat)
    requires n > 0 && id in models && Chain(namespace, models, id, n).None?
    ensures ParentOf(namespace, models[id]).Some?
    ensures Chain(namespace, models, ParentOf(namespace, models[id]).value, n - 1).None?
  {
    hide ParentOf;
  }

  /** Ancestors, as long as there is one in the models for every step. */
  lemma {:induction false} ChainEnds(namespace: string, models: Models, id: string, n: nat, k: nat)
    requires k <= n && Chain(namespace, models, id, n).None?
    requires forall j: nat :: !MissingAt(namespace, models, id, j)
    ensures Ancestor(namespace, models, id, k).Some?
    ensures Chain(namespace, models, Ancestor(namespace, models, id, k).value, n - k).None?
    decreases k
  {
    hide ParentOf, Chain;
    if k > 0 {
      ChainEnds(namespace, models, id, n, k - 1);
      assert !MissingAt(namespace, models, id, k - 1);
      NoChainStep(namespace, models, Ancestor(namespace, models, id, k - 1).value, n - k + 1);
    }
  }

  lemma {:induction false} Pigeonhole(s: set<string>, f: nat -> string, n: nat)
    requires n > |s| && forall i: nat :: i < n ==> f(i) in s
    ensures exists i: nat, j: nat :: i < j < n && f(i) == f(j)
    decreases n
  {
    var last := f(n - 1);
    if exists i: nat :: i < n - 1 && f(i) == last {
      var i: nat :| i < n - 1 && f(i) == last;
    } else {
      assert last in s;
      Pigeonhole(s - {last}, f, n - 1);
    }
  }

  lemma UnbrokenChain(namespace: string, models: Models, id: string)
    requires Chain(namespace, models, id, |models|).None?
    ensures Broken(namespace, models, id)
  {
    hide Chain;
    if forall j: nat :: !MissingAt(namespace, models, id, j) {
      var f := (i: nat) =>
        if Ancestor(namespace, models, id, i).Some? then Ancestor(namespace, models, id, i).value else "";
      var n := |models| + 1;
      forall i: nat | i < n
        ensures f(i) in models && Ancestor(namespace, models, id, i).Some?
      {
        ChainEnds(namespace, models, id, |models|, i);
        assert !MissingAt(namespace, models, id, i);
      }
      assert |models.Keys| == |models|;
      Pigeonhole(models.Keys, f, n);
      var i: nat, j: nat :| i < j < n && f(i) == f(j);
      assert RepeatsAt(namespace, models, id, i, j);
    }
  }

  /** The chain of parents is found exactly when it is not broken. */
  lemma ChainIffUnbroken(namespace: string, models: Models, id: string)
    ensures Chain(namespace, models, id, |models|).Some? <==> !Broken(namespace, models, id)
  {
    if Chain(namespace, models, id, |models|).Some? {
      ChainUnbroken(namespace, models, id, |models|);
    } else {
      UnbrokenChain(namespace, models, id);
    }
  }

  // ---- memoised resolution ----

  /** The maps that are already resolved are what the plain chain gives. */
  predicate Memo(namespace: string, models: Models, resolved: Models) {
    forall id <- resolved ::
      Chain(namespace, models, id, |models|).Some? &&
      var c := Chain(namespace, models, id, |models|).value;
      c != [] && resolved[id] == Flatten(c)
  }

  /** The stack is the walk of parents that has led to an id. */
  predicate Walk(namespace: string, models: Models, stack: seq<string>, id: string) {
    && (forall s <- stack :: s in models)
    && (forall i :: 0 <= i < |stack| - 1 ==> ParentOf(namespace, models[stack[i]]) == Some(stack[i + 1]))
    && (stack != [] ==> ParentOf(namespace, models[stack[|stack| - 1]]) == Some(id))
  }

  lemma {:induction false} WalkAncestor(namespace: string, models: Models, stack: seq<string>, id: string, i: nat,
                                        j: nat)
    requires Walk(namespace, models, stack, id) && i + j <= |stack| && i < |stack|
    ensures Ancestor(namespace, models, stack[i], j) == Some(if i + j < |stack| then stack[i + j] else id)
    decreases j
  {
    hide ParentOf;
    if j > 0 { WalkAncestor(namespace, models, stack, id, i, j - 1); }
  }

  /** An id that is already on the walk has no chain. */
  lemma StackCycle(namespace: string, models: Models, stack: seq<string>, id: string)
    requires Walk(namespace, models, stack, id) && id in stack
    ensures Chain(namespace, models, id, |models|).None?
  {
    hide ParentOf, Chain, Ancestor;
    var i: nat :| i < |stack| && stack[i] == id;
    WalkAncestor(namespace, models, stack, id, i, 0);
    WalkAncestor(namespace, models, stack, id, i, |stack| - i);
    assert RepeatsAt(namespace, models, id, 0, |stack| - i);
    ChainIffUnbroken(namespace, models, id);
  }

  /** A chain is found in as many steps as there are declarations, if it is found at all. */
  lemma ChainAny(namespace: string, models: Models, id: string, n: nat)
    requires Chain(namespace, models, id, n).Some?
    ensures Chain(namespace, models, id, |models|) == Chain(namespace, models, id, n)
  {
    hide Chain;
    ChainUnbroken(namespace, models, id, n);
    ChainIffUnbroken(namespace, models, id);
    if n <= |models| {
      ChainSame(namespace, models, id, n, |models|);
    } else {
      ChainSame(namespace, models, id, |models|, n);
    }
  }

  lemma ChainUnfold(namespace: string, models: Models, id: string, n: nat)
    requires id in models && n > 0
    ensures Chain(namespace, models, id, n)
         == match ParentOf(namespace, models[id])
            case None => Some([models[id]])
            case Some(parent) =>
              match Chain(namespace, models, parent, n - 1)
              case None => None
              case Some(c) => Some(c + [models[id]])
  {
    hide ParentOf;
  }

  /** The prefix of the own namespace is dropped from an id, and nothing else is. */
  lemma LocalIdIs(namespace: string, id: string, name: string)
    ensures Text.TrimSpace(namespace) != "" && Text.TrimSpace(id) == Text.TrimSpace(namespace) + "." + name ==>
              LocalId(namespace, id) == name
    ensures Text.TrimSpace(namespace) == "" ==> LocalId(namespace, id) == Text.TrimSpace(id)
    ensures (forall rest :: Text.TrimSpace(id) != Text.TrimSpace(namespace) + "." + rest) ==>
              LocalId(namespace, id) == Text.TrimSpace(id)
  {
    hide Text.TrimSpace;
    var i, n := Text.TrimSpace(id), Text.TrimSpace(namespace);
    if n + "." <= i { assert i == n + "." + i[|n| + 1..]; }
  }

  /**
   The chain of a declared id is the map alone when it names no parent, and else that of its parent and itself.
   */
  lemma ChainOfParent(namespace: string, models: Models, id: string)
    requires id in models
    ensures Chain(namespace, models, id, |models|)
         == if Text.TrimSpace(models[id].parent) == "" then Some([models[id]])
            else
              match Chain(namespace, models, LocalId(namespace, models[id].parent), |models|)
              case None => None
              case Some(c) => Some(c + [models[id]])
  {
    hide Chain, LocalId, Text.TrimSpace;
    assert |models| > 0 by { assert models.Keys != {}; }
    ChainUnfold(namespace, models, id, |models|);
    var p := ParentOf(namespace, models[id]);
    if p.Some? {
      if Chain(namespace, models, p.value, |models|).Some? {
        ChainUnfold(namespace, models, id, |models| + 1);
        ChainAny(namespace, models, id, |models| + 1);
      } else if Chain(namespace, models, p.value, |models| - 1).Some? {
        ChainSame(namespace, models, p.value, |models| - 1, |models|);
      }
    }
  }

  lemma Remembered(namespace: string, models: Models, resolved: Models, id: string, r: ResultMap)
    requires Memo(namespace, models, resolved)
    requires Chain(namespace, models, id, |models|).Some?
    requires var c := Chain(namespace, models, id, |models|).value; c != [] && r == Flatten(c)
    ensures Memo(namespace, models, resolved[id := r])
  {
    hide Chain, Flatten;
  }

  lemma WalkOn(namespace: string, models: Models, stack: seq<string>, id: string)
    requires Walk(namespace, models, stack, id) && id in models && ParentOf(namespace, models[id]).Some?
    ensures Walk(namespace, models, stack + [id], ParentOf(namespace, models[id]).value)
  {
    hide LocalId, Text.TrimSpace;
    var more := stack + [id];
    forall i | 0 <= i < |more| - 1
      ensures ParentOf(namespace, models[more[i]]) == Some(more[i + 1])
    {
      if i + 1 < |stack| { assert more[i] == stack[i] && more[i + 1] == stack[i + 1]; }
    }
  }

  lemma ParentTrimmed(namespace: string, m: ResultMap)
    ensures LocalId(namespace, Text.TrimSpace(m.parent)) == LocalId(namespace, m.parent)
  {
    Text.TrimTwice(m.parent);
  }

  lemma StackGrows(keys: set<string>, stack: seq<string>, id: string)
    requires id in keys && id !in stack
    ensures keys - (set s <- stack + [id]) < keys - (set s <- stack)
  {
    assert id in keys - (set s <- stack) && id in stack + [id];
    assert forall s <- stack :: s in stack + [id];
  }

  class Resolver {
    const namespace: string
    const models: Models
    var resolved: Models

    constructor (namespace: string, models: Models)
      ensures this.namespace == namespace && this.models == models && resolved == map[]
    {
      this.namespace := namespace;
      this.models := models;
      resolved := map[];
    }

    method ResolveXmlResultMap(name: string, stack: seq<string>) returns (r: Result<ResultMap, Error>)
      requires Memo(namespace, models, resolved) && Walk(namespace, models, stack, LocalId(namespace, name))
      modifies this
      ensures Memo(namespace, models, resolved)
      ensures match Chain(namespace, models, LocalId(namespace, name), |models|)
              case None => r.Err?
              case Some(c) => c != [] && r == Ok(Flatten(c))
      decreases models.Keys - (set s <- stack)
    {
      hide LocalId, Flatten, Chain, Walk, Merge, Text.TrimSpace;
      var id := LocalId(namespace, name);
      if id in resolved {
        return Ok(resolved[id]);
      }
      if id in stack {
        StackCycle(namespace, models, stack, id);
        return Err(Cycle(id));
      }
      if id !in models {
        NoModel(namespace, models, id);
        return Err(NotFound(id));
      }
      ChainOfParent(namespace, models, id);
      var resultMap := models[id];
      FlattenOne(resultMap);
      var parentId := Text.TrimSpace(resultMap.parent);
      if parentId != "" {
        ParentTrimmed(namespace, resultMap);
        WalkOn(namespace, models, stack, id);
        StackGrows(models.Keys, stack, id);
        var parent := ResolveXmlResultMap(parentId, stack + [id]);
        if parent.Err? {
          return parent;
        }
        MergeIsFlatten(Chain(namespace, models, LocalId(namespace, parentId), |models|).value, resultMap);
        resultMap := Merge(parent.value, resultMap);
      }
      Remembered(namespace, models, resolved, id, resultMap);
      resolved := resolved[id := resultMap];
      return Ok(resultMap);
    }
  }

  lemma NoModel(namespace: string, models: Models, id: string)
    requires id !in models
    ensures Chain(namespace, models, id, |models|).None?
  {
  }

  // ---- all the resultMaps of a mapper ----

  /** Every declaration has an id of its own. */
  predicate GoodIds(items: seq<ResultMap>) {
    && (forall i :: 0 <= i < |items| ==> IdOf(items[i]) != "")
    && (forall i, j :: 0 <= i < j < |items| ==> IdOf(items[i]) != IdOf(items[j]))
  }

  function IdOf(m: ResultMap): string {
    Text.TrimSpace(m.id)
  }

  function Named(m: ResultMap): ResultMap {
    m.(id := IdOf(m))
  }

  /** The declarations under their ids. */
  function Declared(items: seq<ResultMap>): (models: Models) {
    if items == [] then map[]
    else Declared(items[..|items| - 1])[IdOf(items[|items| - 1]) := Named(items[|items| - 1])]
  }

  lemma {:induction false} DeclaredIs(items: seq<ResultMap>)
    ensures forall k <- Declared(items) :: exists i :: 0 <= i < |items| && k == IdOf(items[i])
    ensures GoodIds(items) ==>
              forall i :: 0 <= i < |items| ==>
                IdOf(items[i]) in Declared(items) && Declared(items)[IdOf(items[i])] == Named(items[i])
  {
    hide IdOf, Named;
    if items != [] {
      var front := items[..|items| - 1];
      DeclaredIs(front);
      assert forall i :: 0 <= i < |front| ==> front[i] == items[i];
    }
  }

  lemma GoodMore(items: seq<ResultMap>, n: nat)
    requires n < |items| && GoodIds(items[..n]) && IdOf(items[n]) != ""
    requires forall i :: 0 <= i < n ==> IdOf(items[i]) != IdOf(items[n])
    ensures GoodIds(items[..n + 1])
  {
    hide IdOf;
    assert forall i :: 0 <= i < n ==> items[..n][i] == items[i] == items[..n + 1][i];
  }

  lemma SameId(items: seq<ResultMap>, n: nat)
    requires n < |items| && IdOf(items[n]) in Declared(items[..n])
    ensures !GoodIds(items)
  {
    hide IdOf, Declared;
    DeclaredIs(items[..n]);
    var i :| 0 <= i < n && IdOf(items[n]) == IdOf(items[..n][i]);
    assert IdOf(items[i]) == IdOf(items[n]);
  }

  lemma NewId(items: seq<ResultMap>, n: nat)
    requires n < |items| && IdOf(items[n]) !in Declared(items[..n]) && IdOf(items[n]) != "" && GoodIds(items[..n])
    ensures GoodIds(items[..n + 1])
  {
    hide IdOf, Declared;
    DeclaredIs(items[..n]);
    forall i | 0 <= i < n
      ensures IdOf(items[i]) != IdOf(items[n])
    {
      assert IdOf(items[..n][i]) in Declared(items[..n]);
    }
    GoodMore(items, n);
  }

  lemma DeclaredMore(items: seq<ResultMap>, n: nat)
    requires n < |items|
    ensures Declared(items[..n + 1]) == Declared(items[..n])[IdOf(items[n]) := Named(items[n])]
  {
    hide IdOf;
    assert items[..n + 1][..n] == items[..n] && items[..n + 1][n] == items[n];
  }

  lemma NoItems(items: seq<ResultMap>)
    ensures GoodIds(items[..0]) && Declared(items[..0]) == map[]
  {
  }

  lemma BlankId(items: seq<ResultMap>, n: nat)
    requires n < |items| && IdOf(items[n]) == ""
    ensures !GoodIds(items)
  {
  }

  method Register(items: seq<ResultMap>) returns (r: Result<Models, Error>)
    ensures r.Ok? <==> GoodIds(items)
    ensures r.Ok? ==> r.value == Declared(items)
  {
    hide IdOf, Named, Declared, GoodIds;
    NoItems(items);
    var models: Models := map[];
    for i := 0 to |items|
      invariant GoodIds(items[..i]) && models == Declared(items[..i])
    {
      var id := IdOf(items[i]);
      if id == "" {
        BlankId(items, i);
        return Err(MissingId);
      }
      if id in models {
        SameId(items, i);
        return Err(Duplicate(id));
      }
      NewId(items, i);
      DeclaredMore(items, i);
      models := models[id := Named(items[i])];
    }
    assert items[..|items|] == items;
    return Ok(models);
  }

  /** Whether every declaration has a chain of declared parents that comes to an end. */
  predicate AllChained(namespace: string, models: Models, items: seq<ResultMap>) {
    forall m <- items :: Chain(namespace, models, LocalId(namespace, m.id), |models|).Some?
  }

  /**
   In whatever order the declarations come: each resolved map is all that is inherited along its chain, and resolving
   fails exactly for a bad id or a broken chain.
   */
  method XmlResultMaps(namespace: string, items: seq<ResultMap>) returns (r: Result<seq<ResultMap>, Error>)
    ensures r.Ok? <==> GoodIds(items) && AllChained(namespace, Declared(items), items)
    ensures r.Ok? ==> |r.value| == |items|
    ensures r.Ok? ==> forall i :: 0 <= i < |items| ==>
              var c := Chain(namespace, Declared(items), LocalId(namespace, items[i].id), |Declared(items)|).value;
              c != [] && r.value[i] == Flatten(c)
  {
    hide Chain, Flatten, LocalId, GoodIds, Declared;
    var models := Register(items);
    if models.Err? {
      return Err(models.error);
    }
    var resolver := new Resolver(namespace, models.value);
    var resultMaps := [];
    for i := 0 to |items|
      invariant resolver.namespace == namespace && resolver.models == models.value && fresh(resolver)
      invariant Memo(namespace, models.value, resolver.resolved)
      invariant |resultMaps| == i
      invariant forall j :: 0 <= j < i ==>
                  var c := Chain(namespace, models.value, LocalId(namespace, items[j].id), |models.value|);
                  c.Some? && c.value != [] && resultMaps[j] == Flatten(c.value)
    {
      var one := resolver.ResolveXmlResultMap(items[i].id, []);
      if one.Err? {
        return Err(one.error);
      }
      resultMaps := resultMaps + [one.value];
    }
    return Ok(resultMaps);
  }

  /** Whether the declarations of two mappers are the same but for their order. */
  predicate SameDeclarations(items: seq<ResultMap>, others: seq<ResultMap>) {
    (forall m <- items :: m in others) && (forall m <- others :: m in items)
  }

  /** The order of the declarations changes neither the models nor, with them, any chain. */
  lemma OrderDoesNotMatter(namespace: string, items: seq<ResultMap>, others: seq<ResultMap>)
    requires GoodIds(items) && GoodIds(others) && SameDeclarations(items, others)
    ensures Declared(items) == Declared(others)
    ensures AllChained(namespace, Declared(items), items) <==> AllChained(namespace, Declared(others), others)
  {
    hide Chain, LocalId, IdOf, Named, Declared, GoodIds;
    DeclaredIs(items);
    DeclaredIs(others);
    SameModels(items, others);
    SameModels(others, items);
  }

  lemma SameModels(items: seq<ResultMap>, others: seq<ResultMap>)
    requires GoodIds(items) && GoodIds(others) && SameDeclarations(items, others)
    ensures forall k <- Declared(items) :: k in Declared(others) && Declared(others)[k] == Declared(items)[k]
  {
    hide IdOf, Named, Declared;
    DeclaredIs(items);
    DeclaredIs(others);
    forall k | k in Declared(items)
      ensures k in Declared(others) && Declared(others)[k] == Declared(items)[k]
    {
      var i :| 0 <= i < |items| && k == IdOf(items[i]);
      assert items[i] in others;
      var j :| 0 <= j < |others| && others[j] == items[i];
    }
  }
}
