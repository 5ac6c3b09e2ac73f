/** Which branch of a choose node is rendered, for all branches that its children can be. */
module DynamicChoice {
  import opened Dynamic
  import opened Prelude

  /** A branch that is passed over: one whose test does not hold, or an otherwise. */
  predicate Passed<V, E>(w: World<V>, branch: Node<V, E>, c: Context<V>) {
    branch.Otherwise? || (branch.When? && branch.test.decide(LookupAll(w, c, branch.test.names)) == Ok(false))
  }

  /** Branches that are passed over leave the last otherwise among them. */
  lemma {:induction false} ChosenPast<V, E>(w: World<V>, branches: seq<Node<V, E>>, i: nat, otherwise: Option<nat>,
                                            c: Context<V>, k: nat, last: Option<nat>)
    requires i <= k <= |branches| && (otherwise.Some? ==> otherwise.value < i && branches[otherwise.value].Otherwise?)
    requires forall j :: i <= j < k ==> Passed(w, branches[j], c)
    requires last.Some? ==> last.value < k && branches[last.value].Otherwise?
    requires forall j :: i <= j < k && branches[j].Otherwise? ==> last.Some? && j <= last.value
    requires last == otherwise || (last.Some? && i <= last.value)
    ensures Chosen(w, branches, i, otherwise, c) == Chosen(w, branches, k, last, c)
    decreases k - i
  {
    if i < k {
      var next := if branches[i].Otherwise? then Some(i) else otherwise;
      assert Chosen(w, branches, i, otherwise, c) == Chosen(w, branches, i + 1, next, c);
      ChosenPast(w, branches, i + 1, next, c, k, last);
    }
  }

  /** The last otherwise among the first branches, if there is one. */
  ghost predicate LastOtherwise<V, E>(branches: seq<Node<V, E>>, k: nat, last: Option<nat>)
    requires k <= |branches|
  {
    && (last.Some? ==> last.value < k && branches[last.value].Otherwise?)
    && forall j :: 0 <= j < k && branches[j].Otherwise? ==> last.Some? && j <= last.value
  }

  lemma {:induction false} HasLast<V, E>(branches: seq<Node<V, E>>, k: nat) returns (last: Option<nat>)
    requires k <= |branches|
    ensures LastOtherwise(branches, k, last)
  {
    last := None;
    for j := 0 to k
      invariant LastOtherwise(branches, j, last)
    {
      if branches[j].Otherwise? { last := Some(j); }
    }
  }

  /**
   A choose node renders the children of the first branch whose test holds; a test that fails before is its error, and
   so is any other node.
   */
  lemma ChooseStops<V, E>(w: World<V>, branches: seq<Node<V, E>>, c: Context<V>, k: nat)
    requires k < |branches| && !Passed(w, branches[k], c) && forall i :: 0 <= i < k ==> Passed(w, branches[i], c)
    ensures Render(w, Choose(branches), c)
         == if !branches[k].When? then (Err(ChooseKind), c)
            else match branches[k].test.decide(LookupAll(w, c, branches[k].test.names))
              case Err(e) => (Err(Evaluation(e)), c)
              case Ok(_) => RenderChildren(w, branches[k].children, c)
  {
    hide RenderChildren, LookupAll;
    var last := HasLast(branches, k);
    ChosenPast(w, branches, 0, None, c, k, last);
  }

  /** When no test holds or fails, it renders the children of the last otherwise, or nothing without one. */
  lemma ChooseOtherwise<V, E>(w: World<V>, branches: seq<Node<V, E>>, c: Context<V>, last: Option<nat>)
    requires forall i :: 0 <= i < |branches| ==> Passed(w, branches[i], c)
    requires LastOtherwise(branches, |branches|, last)
    ensures Render(w, Choose(branches), c)
         == if last.None? then (Ok([]), c) else RenderChildren(w, branches[last.value].children, c)
  {
    hide RenderChildren, LookupAll;
    ChosenPast(w, branches, 0, None, c, |branches|, last);
  }
}
