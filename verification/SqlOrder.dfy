/**
 The two rewritings of `applyOptimisticLock` of entity_interceptor.go over the lexemes of an UPDATE: an assignment put
 in before its WHERE and a condition joined to its predicate, proved not to disturb each other.
 */
module SqlOrder {
  import opened Prelude
  import opened SqlLexer
  import opened SqlScan
  import opened SqlPredicate
  import opened SqlRewrite
  import opened SqlList
  import opened SqlUpdate

  /** An UPDATE in its order: SET before WHERE, and WHERE, if there is one, before any trailing clause. */
  predicate InOrder(ts: seq<Lexeme>) {
    && OneBlock(ts) && HasSet(ts) && !NextIs(ts, "select")
    && Seek(ts, 0, Keyword("where")) == WhereIndex(ts) <= TailIndex(ts, true)
  }

  predicate WhereLed(ts: seq<Lexeme>) {
    ts == [] || (ts[0].kind.Word? && Is(ts[0], "where"))
  }

  // ---- the assignment does not disturb what comes after it ----

  lemma WhereIsNoPredicate(after: seq<Lexeme>)
    requires WhereLed(after)
    ensures !PredicateFollows(after)
  {
    hide Is;
    if after != [] {
      DifferentWord(after[0], "where", "is");
      DifferentWord(after[0], "where", "in");
      DifferentWord(after[0], "where", "like");
      DifferentWord(after[0], "where", "ilike");
      DifferentWord(after[0], "where", "between");
      DifferentWord(after[0], "where", "not");
      SameWord(after[0], "where");
    }
  }

  /**
   The last word before the assignment, which was not a trailing clause, is not one either when a comma follows it.
   */
  lemma CommaStillNoTail(w: Lexeme, after: seq<Lexeme>, rest: seq<Lexeme>)
    requires WhereLed(after) && !TailClause(w, after, true)
    ensures !TailClause(w, [CommaSign] + rest, true)
  {
    hide Is, PredicateFollows, WhereLed;
    CommaLooksLikeEnd(w);
    WhereIsNoPredicate(after);
    WhereIsNoPredicate([]) by { assert WhereLed([]) by { LedNothing(); } }
  }

  lemma LedNothing()
    ensures WhereLed([])
  {
  }

  lemma {:induction false} SeekPastComma(h: seq<Lexeme>, tail: seq<Lexeme>, depth: nat, rest: seq<Lexeme>)
    requires AllSig(h) && AllSig(tail) && AllSig(rest) && WhereLed(tail)
    requires Seek(h + tail, depth, Tail(true)) >= |h|
    ensures Seek(h + ([CommaSign] + rest), depth, Tail(true))
         == |h| + Seek([CommaSign] + rest, DepthOf(h, depth), Tail(true))
  {
    hide TailClause, WhereLed, Seek, Sig, Step;
    var next := [CommaSign] + rest;
    if h == [] {
      assert h + next == next;
    } else {
      var w, h' := h[0], h[1..];
      assert h == [w] + h' && h + tail == [w] + (h' + tail) && h + next == [w] + (h' + next);
      CommaIs(Tail(true));
      SigOfSig(h' + tail);
      SigOfSig(h' + next);
      SeekFirst(w, h' + tail, depth, Tail(true));
      SeekFirst(w, h' + next, depth, Tail(true));
      if h' == [] {
        assert h' + tail == tail && h' + next == next;
        if !TailClause(w, tail, true) { CommaStillNoTail(w, tail, rest); }
      } else {
        TailClauseLooksAhead(w, h' + tail, h' + next, true);
      }
      SeekPastComma(h', tail, Step(depth, w.kind), rest);
    }
  }

  /** What comes before the WHERE, and what starts with it. */
  lemma UpdateParts(ts: seq<Lexeme>)
    requires InOrder(ts)
    ensures var w := WhereIndex(ts); var front, rest := ts[..w], ts[w..];
            && ts == front + rest && 0 < AfterSet(ts) <= w
            && Seek(front, 0, Keyword("where")) == |front| && DepthOf(front, 0) == 0 && WhereLed(rest)
            && ScanStart(ts) == 0 && TailIndex(ts, true) == Seek(ts, 0, Tail(true)) >= w
  {
    hide Seek, DepthOf, Sig, AfterSet, Is, Hits;
    var w := WhereIndex(ts);
    var front, rest := ts[..w], ts[w..];
    assert ts == front + rest;
    FrontStarts(ts);
    SeekKeywordIn(front, rest, 0, "where");
    SeekDepth(ts, 0, Keyword("where"));
    WhereHit(ts);
    assert ts[0..] == ts;
    if w == |ts| { assert ts[..TailIndex(ts, true)] == front; }
  }

  lemma FrontStarts(ts: seq<Lexeme>)
    requires AllSig(ts) && HasSet(ts) && !NextIs(ts, "with") && !NextIs(ts, "select")
    ensures ScanStart(ts) == 0 && 0 < AfterSet(ts)
  {
    hide Seek, Sig;
    SigOfSig(ts);
  }

  lemma WhereHit(ts: seq<Lexeme>)
    requires Seek(ts, 0, Keyword("where")) == WhereIndex(ts)
    ensures WhereLed(ts[WhereIndex(ts)..])
  {
    hide Seek, Is, WhereIndex;
    SeekHit(ts, 0, Keyword("where"));
  }

  /** The trailing clauses after the assignment was put in. */
  lemma AssignedTail(ts: seq<Lexeme>, a: seq<Lexeme>)
    requires InOrder(ts) && Assignment(a)
    ensures var w := WhereIndex(ts); var mid := ts[..w] + ([CommaSign] + (a + ts[w..]));
            && mid == Assign(ts, a) && AllSig(mid) && ScanStart(mid) == 0
            && !NextIs(mid, "with") && !NextIs(mid, "select")
            && TailIndex(mid, true) == TailIndex(ts, true) + 1 + |a|
  {
    hide Seek, DepthOf, Sig, AfterSet, WhereIndex, NoTailWord, Items, Is, WhereLed;
    var w := WhereIndex(ts);
    var front, rest := ts[..w], ts[w..];
    UpdateParts(ts);
    AssignPieces(ts, a);
    var mid := front + ([CommaSign] + (a + rest));
    assert mid[0] == ts[0];
    SigOfSig(mid);
    SeekPastComma(front, rest, 0, a + rest);
    SeekPast(front, rest, 0, Tail(true));
    CommaIs(Tail(true));
    SeekFirst(CommaSign, a + rest, 0, Tail(true));
    SeekTailPast(a, rest, 0);
    assert mid[0..] == mid;
  }

  /** The statement after the assignment was put in: only what comes before the WHERE is longer. */
  lemma AssignedParse(ts: seq<Lexeme>, a: seq<Lexeme>)
    requires InOrder(ts) && Assignment(a)
    ensures OneBlock(Assign(ts, a))
    ensures Parse(Assign(ts, a)) == Parse(ts).(head := ts[..WhereIndex(ts)] + [CommaSign] + a)
  {
    hide Seek, DepthOf, Sig, AfterSet, WhereIndex, NoTailWord, Items, Is, WhereLed, TailIndex, NextIs, ScanStart;
    UpdateParts(ts);
    AssignedTail(ts, a);
    var w, n := WhereIndex(ts), TailIndex(ts, true);
    var front, mid := ts[..w], Assign(ts, a);
    var part := ts[w..n];
    var longer := front + [CommaSign] + a;
    assert ts[..n] == front + part;
    assert mid[..n + 1 + |a|] == longer + part && mid[n + 1 + |a|..] == ts[n..];
    LongerFront(front, a);
    PartsParse(front, part);
    PartsParse(longer, part);
    DepthConcat(front, part, 0);
    DepthConcat(longer, part, 0);
    PartStarts(ts, n);
  }

  lemma LongerFront(front: seq<Lexeme>, a: seq<Lexeme>)
    requires Seek(front, 0, Keyword("where")) == |front| && DepthOf(front, 0) == 0 && Assignment(a)
    ensures var longer := front + [CommaSign] + a;
            Seek(longer, 0, Keyword("where")) == |longer| && DepthOf(longer, 0) == 0
  {
    assert [CommaSign][1..] == [];
    hide Seek;
    WhereInFront(front, a);
    DepthConcat(front + [CommaSign], a, 0);
    DepthConcat(front, [CommaSign], 0);
  }

  /** The body of a statement cut where its WHERE starts. */
  lemma PartsParse(front: seq<Lexeme>, part: seq<Lexeme>)
    requires Seek(front, 0, Keyword("where")) == |front| && DepthOf(front, 0) == 0
    ensures var k := Seek(part, 0, Keyword("where")); var body := front + part;
            && Seek(body, 0, Keyword("where")) == |front| + k
            && body[..|front| + k] == front + part[..k]
            && (k < |part| ==> body[|front| + k + 1..] == part[k + 1..])
  {
    hide Seek, DepthOf;
    SeekKeywordIn(front, part, 0, "where");
  }

  /** The part from the WHERE on, up to the trailing clauses, is empty or starts with it. */
  lemma PartStarts(ts: seq<Lexeme>, n: nat)
    requires WhereIndex(ts) <= n <= |ts| && WhereLed(ts[WhereIndex(ts)..])
    ensures var part := ts[WhereIndex(ts)..n]; part != [] ==> Seek(part, 0, Keyword("where")) == 0
    ensures Seek(ts[WhereIndex(ts)..n], 0, Keyword("where")) == 0
  {
    hide WhereIndex;
  }

  // ---- the order of an UPDATE ----

  /** When no WHERE comes before the end of SET, the first one is the first after it. */
  lemma WhereAfterSet(ts: seq<Lexeme>)
    requires HasSet(ts) && Seek(ts, 0, Keyword("where")) >= AfterSet(ts)
    ensures Seek(ts, 0, Keyword("where")) == WhereIndex(ts) && DepthOf(ts[..AfterSet(ts)], 0) == 0
  {
    var m := AfterSet(ts);
    assert ts == ts[..m] + ts[m..];
    SetDepth(ts);
    hide Seek, AfterSet, DepthOf;
    SeekKeywordIn(ts[..m], ts[m..], 0, "where");
  }

  lemma SetDepth(ts: seq<Lexeme>)
    requires HasSet(ts)
    ensures DepthOf(ts[..AfterSet(ts)], 0) == 0
  {
    var k := Seek(ts, 0, Keyword("set"));
    assert [ts[k]][1..] == [];
    SeekHit(ts, 0, Keyword("set"));
    hide Seek;
    SeekDepth(ts, 0, Keyword("set"));
    TakeOne(ts, k);
    DepthConcat(ts[..k], [ts[k]], 0);
  }

  /** The SET items of an UPDATE in order stand between SET and WHERE, or the end. */
  lemma RegionItems(ts: seq<Lexeme>)
    requires InOrder(ts)
    ensures var m, w := AfterSet(ts), WhereIndex(ts);
            ReadUpdate(ts).head == ts[..m] && ReadUpdate(ts).items == Items(ts[m..w], 0) && DepthOf(ts[m..w], 0) == 0
  {
    hide Seek, AfterSet, Items, DepthOf, WhereLed, OneBlock, HasSet, NextIs, TailIndex, ScanStart;
    var m, w := AfterSet(ts), WhereIndex(ts);
    UpdateParts(ts);
    WhereAfterSet(ts);
    assert ts[..w] == ts[..m] + ts[m..w];
    DepthConcat(ts[..m], ts[m..w], 0);
    assert ts[m..w] == ts[m..][..w - m];
    if w == |ts| {
      assert ts == ts[..m] + ts[m..];
      SeekPast(ts[..m], ts[m..], 0, Tail(true));
    }
  }

  /** After the assignment the UPDATE is still in order. */
  lemma AssignInOrder(ts: seq<Lexeme>, a: seq<Lexeme>)
    requires InOrder(ts) && Assignment(a)
    ensures InOrder(Assign(ts, a)) && AfterSet(Assign(ts, a)) == AfterSet(ts)
    ensures WhereIndex(Assign(ts, a)) == WhereIndex(ts) + 1 + |a|
  {
    hide Seek, AfterSet, DepthOf, WhereLed, OneBlock, HasSet, NextIs, TailIndex, ScanStart, Assignment, WhereIndex;
    var w := WhereIndex(ts);
    var front, rest, mid := ts[..w], ts[w..], Assign(ts, a);
    UpdateParts(ts);
    AssignedTail(ts, a);
    AssignedParse(ts, a);
    AssignAfterSet(ts, a);
    LongerFront(front, a);
    var longer := front + [CommaSign] + a;
    assert mid == longer + rest;
    SeekKeywordIn(longer, rest, 0, "where");
    PartStarts(ts, |ts|);
    assert ts[w..|ts|] == rest;
    WhereAfterSet(mid);
  }

  /** After the condition the UPDATE is still in order, with its WHERE where the old one was or would have been. */
  lemma SpliceInOrder(ts: seq<Lexeme>, c: seq<Lexeme>)
    requires InOrder(ts) && Condition(c)
    ensures InOrder(Splice(ts, c)) && AfterSet(Splice(ts, c)) == AfterSet(ts)
    ensures WhereIndex(Splice(ts, c)) == WhereIndex(ts) <= TailIndex(ts, true)
  {
    hide Seek, DepthOf, OneBlock, NextIs, TailIndex, ScanStart, Condition, WhereIndex, Joiner;
    var n := TailIndex(ts, true);
    var out, more := Splice(ts, c), [Joiner(ts)] + (c + ts[n..]);
    UpdateParts(ts);
    SpliceOneBlock(ts, c);
    SpliceTailIndex(ts, c);
    StillNoSelect(ts, c);
    assert ts == ts[..n] + ts[n..] && out == ts[..n] + more;
    SeekKeywordIn(ts[..n], ts[n..], 0, "set");
    SeekKeywordIn(ts[..n], more, 0, "set");
    SeekKeywordIn(ts[..n], ts[n..], 0, "where");
    SeekKeywordIn(ts[..n], more, 0, "where");
    if WhereIndex(ts) == n { JoinedAtEnd(ts, c); }
    WhereAfterSet(out);
  }

  lemma StillNoSelect(ts: seq<Lexeme>, c: seq<Lexeme>)
    requires OneBlock(ts) && !NextIs(ts, "select")
    ensures !NextIs(Splice(ts, c), "select")
  {
    hide Is, Seek, Splice, TailIndex, NextIs;
    SpliceScanStart(ts, c);
  }

  /** Without a WHERE there are no trailing clauses either, and the condition makes the WHERE. */
  lemma JoinedAtEnd(ts: seq<Lexeme>, c: seq<Lexeme>)
    requires InOrder(ts) && WhereIndex(ts) == TailIndex(ts, true)
    ensures var n := TailIndex(ts, true);
            n == |ts| && DepthOf(ts[..n], 0) == 0 && Seek([Joiner(ts)] + (c + ts[n..]), 0, Keyword("where")) == 0
  {
    hide Seek, DepthOf, TailIndex, WhereIndex, Is;
    var n := TailIndex(ts, true);
    UpdateParts(ts);
    TailIsLed(ts);
    if n < |ts| { NoTailWhere(ts[n]); }
    assert ts[..n] == ts;
    WhereFound(c + ts[n..]);
  }

  lemma NoTailWhere(l: Lexeme)
    ensures TailWord(l) ==> !Is(l, "where")
  {
    hide Is;
    if Is(l, "where") {
      DifferentWord(l, "where", "order");
      DifferentWord(l, "where", "group");
      DifferentWord(l, "where", "having");
      DifferentWord(l, "where", "fetch");
      DifferentWord(l, "where", "for");
      DifferentWord(l, "where", "limit");
      DifferentWord(l, "where", "offset");
    }
  }

  // ---- both rewritings ----

  /** The SET items of an UPDATE in order after an assignment. */
  lemma AssignedItems(ts: seq<Lexeme>, a: seq<Lexeme>)
    requires InOrder(ts) && Assignment(a)
    ensures var before, after := ReadUpdate(ts), ReadUpdate(Assign(ts, a));
            after.head == before.head && after.items == before.items + [a]
  {
    hide InOrder, Assign, ReadUpdate, Items, DepthOf, AfterSet, WhereIndex, NoTailWord, Seek;
    AssignInOrder(ts, a);
    RegionItems(ts);
    RegionItems(Assign(ts, a));
    var m, w, mid := AfterSet(ts), WhereIndex(ts), Assign(ts, a);
    AssignPieces(ts, a);
    assert mid[..m] == ts[..m] && mid[m..w + 1 + |a|] == ts[m..w] + [CommaSign] + a;
    ItemsConcat(ts[m..w], a, 0);
  }

  /** A condition leaves the SET items alone. */
  lemma SplicedItems(ts: seq<Lexeme>, c: seq<Lexeme>)
    requires InOrder(ts) && Condition(c)
    ensures var before, after := ReadUpdate(ts), ReadUpdate(Splice(ts, c));
            after.head == before.head && after.items == before.items
  {
    hide InOrder, ReadUpdate, Items, DepthOf, AfterSet, WhereIndex, TailIndex, Condition, Seek, Joiner;
    SpliceInOrder(ts, c);
    RegionItems(ts);
    RegionItems(Splice(ts, c));
    var m, w, out := AfterSet(ts), WhereIndex(ts), Splice(ts, c);
    assert out[..m] == ts[..m] && out[m..w] == ts[m..w];
  }

  /** The UPDATE with the assignment and the condition, as far as they are not there already. */
  function Locked(ts: seq<Lexeme>, a: seq<Lexeme>, c: seq<Lexeme>, inSet: bool, inWhere: bool): seq<Lexeme> {
    var middle := if inSet then ts else Assign(ts, a);
    if inWhere then middle else Splice(middle, c)
  }

  /**
   Of an UPDATE in order, the two rewritings keep the table, the old SET items and the trailing clauses; they add
   exactly the assignment to the SET items and exactly the condition to the predicate, and leave the UPDATE in order.
   */
  lemma LockedUpdate(ts: seq<Lexeme>, a: seq<Lexeme>, c: seq<Lexeme>, inSet: bool, inWhere: bool)
    requires InOrder(ts) && Assignment(a) && Condition(c)
    ensures var before, after := ReadUpdate(ts), ReadUpdate(Locked(ts, a, c, inSet, inWhere));
            after.head == before.head && after.items == before.items + (if inSet then [] else [a])
    ensures var before, after := Parse(ts), Parse(Locked(ts, a, c, inSet, inWhere));
            && after.where == (if inWhere then before.where else Some(Conjoin(before.where, c)))
            && after.tail == before.tail
    ensures InOrder(Locked(ts, a, c, inSet, inWhere))
  {
    hide InOrder, Condition, Assignment, Parse, Splice, Assign, ReadUpdate, Conjoin;
    var middle := if inSet then ts else Assign(ts, a);
    if !inSet {
      AssignInOrder(ts, a);
      AssignedItems(ts, a);
      AssignedParse(ts, a);
    }
    if !inWhere {
      SplicedItems(middle, c);
      SpliceInOrder(middle, c);
      assert OneBlock(middle) by { InOneBlock(middle); }
      SpliceParses(middle, c);
    }
    assert ReadUpdate(ts).items + [] == ReadUpdate(ts).items;
  }

  lemma InOneBlock(ts: seq<Lexeme>)
    requires InOrder(ts)
    ensures OneBlock(ts)
  {
  }
}
