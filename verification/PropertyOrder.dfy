/**
 When the order in which mybatis_properties.go walks its map matters: exactly when some value refers to a key whose
 expansion has a placeholder of its own.
 */
module PropertyOrder {
  import opened Prelude
  import opened Properties
  import Text

  // ---- a text with a placeholder is not what substitution by plain texts makes of it ----

  /** A placeholder inside a part of a text is a placeholder in it. */
  lemma NotPlain(text: string, i: nat)
    requires i + 1 < |text| && text[i] == '$' && text[i + 1] == '{'
    ensures !SplitFirst(text).Plain?
  {
  }

  /**
   A text holds the rest of itself with the references replaced, from a place before that rest or from its place when it
   has a placeholder: then some replacement has a placeholder. Otherwise each replacement would end before the
   placeholder it stands for, and the whole would be too short.
   */
  lemma {:induction false} Cut(text: string, p: nat, q: nat, texts: map<string, string>)
    requires q <= p <= |text| && (q < p || SplitFirst(text[p..]).At?) && Pieces(text[p..]).Some?
    requires Substitute(Pieces(text[p..]).value, texts) == Some(text[q..])
    ensures exists a :: Reference(a) in Pieces(text[p..]).value && a in texts && !SplitFirst(texts[a]).Plain?
    decreases |text| - p
  {
    hide Text.TrimSpace, Substitute, Pieces, SplitFirst;
    var rest := text[p..];
    if SplitFirst(rest).Plain? {
      PlainPieces(rest, texts);
    } else {
      UnclosedPieces(rest);
      SplitParts(rest);
      SubstituteSplit(rest, texts);
      var split, pieces := SplitFirst(rest), Pieces(rest).value;
      assert pieces[1] == Reference(split.name);
      var end := |text| - |split.rest|;
      var middle := q + |split.before| + |texts[split.name]|;
      Parts(text, q, split.before, texts[split.name], Substitute(Pieces(split.rest).value, texts).value);
      if middle < p + |split.before| + 2 {
        assert split.rest == text[end..];
        Cut(text, end, middle, texts);
        assert forall x <- Pieces(split.rest).value :: x in pieces;
      } else {
        NotPlain(texts[split.name], p - q);
      }
    }
  }

  lemma UnclosedPieces(s: string)
    requires Pieces(s).Some?
    ensures !SplitFirst(s).Unclosed?
  {
    hide SplitFirst;
  }

  /** Where the parts of a concatenation are in a text that ends with it. */
  lemma Parts(text: string, q: nat, a: string, b: string, c: string)
    requires q <= |text| && text[q..] == a + b + c
    ensures |text| == q + |a| + |b| + |c| && text[q + |a| + |b|..] == c
    ensures forall i :: 0 <= i < |b| ==> b[i] == text[q + |a| + i]
  {
    assert text[q..][|a| + |b|..] == c;
    forall i | 0 <= i < |b|
      ensures b[i] == text[q + |a| + i]
    {
      assert (a + b + c)[|a| + i] == b[i] && text[q..][|a| + i] == text[q + |a| + i];
    }
  }

  /** The parts of a text with a placeholder. */
  lemma SplitParts(s: string)
    requires SplitFirst(s).At?
    ensures var split := SplitFirst(s);
            && |split.before| + 3 + |split.rest| <= |s| && s[|split.before|] == '$' && s[|split.before| + 1] == '{'
            && split.rest == s[|s| - |split.rest|..]
  {
    hide Text.TrimSpace;
  }

  lemma SubstituteSplit(s: string, texts: map<string, string>)
    requires SplitFirst(s).At? && Pieces(s).Some? && Substitute(Pieces(s).value, texts).Some?
    ensures var split := SplitFirst(s); var more := Pieces(split.rest);
            && more.Some? && Pieces(s).value == [Literal(split.before), Reference(split.name)] + more.value
            && split.name in texts && Substitute(more.value, texts).Some?
            && Substitute(Pieces(s).value, texts)
               == Some(split.before + texts[split.name] + Substitute(more.value, texts).value)
  {
    hide Text.TrimSpace, SplitFirst;
    var split := SplitFirst(s);
    var more := Pieces(split.rest).value;
    var all := [Literal(split.before), Reference(split.name)] + more;
    assert all[1..] == [Reference(split.name)] + more && all[1..][1..] == more;
    SubstituteTwo(split.before, split.name, more, texts);
  }

  // ---- changing the text of one key ----

  /** A key can be reached from another along references. */
  ghost predicate Reaches(values: Values, key: string, name: string, steps: nat)
    decreases steps
  {
    key == name || (steps > 0 && exists r :: RefersTo(values, key, r) && Reaches(values, r, name, steps - 1))
  }

  lemma FullUnfolds(values: Values, key: string)
    requires key in Full(values)
    ensures key in values && Pieces(values[key]).Some?
    ensures Substitute(Pieces(values[key]).value, Full(values)) == Some(Full(values)[key])
    ensures forall r :: RefersTo(values, key, r) ==> r in Full(values)
  {
    hide Pieces, Substitute, Rounds;
    var n := |values|;
    RoundsMember(values, key, n);
    RoundsGrow(values, n - 1, n);
    SubstituteMore(Pieces(values[key]).value, Rounds(values, n - 1), Rounds(values, n));
    SubstituteNeeds(Pieces(values[key]).value, Rounds(values, n));
  }

  /** What a key refers to is found a round earlier. */
  lemma FoundEarlier(values: Values, key: string, name: string, n: nat)
    requires key in Rounds(values, n) && RefersTo(values, key, name)
    ensures n > 0 && name in Rounds(values, n - 1)
  {
    hide Pieces, Substitute, Rounds;
    RoundsMember(values, key, n);
    SubstituteNeeds(Pieces(values[key]).value, Rounds(values, n - 1));
  }

  lemma {:induction false} ReachedFound(values: Values, key: string, name: string, steps: nat, n: nat)
    requires Reaches(values, key, name, steps) && key in Rounds(values, n)
    ensures name in Rounds(values, n)
    decreases steps
  {
    hide RefersTo, Rounds;
    if key != name {
      var r :| RefersTo(values, key, r) && Reaches(values, r, name, steps - 1);
      FoundEarlier(values, key, r, n);
      RoundsGrow(values, n - 1, n);
      ReachedFound(values, r, name, steps - 1, n);
    }
  }

  lemma {:induction false} ReachesFarther(values: Values, key: string, name: string, next: string, steps: nat)
    requires Reaches(values, key, name, steps) && RefersTo(values, name, next)
    ensures Reaches(values, key, next, steps + 1)
    decreases steps
  {
    hide RefersTo;
    if key == name {
      assert Reaches(values, next, next, steps);
    } else {
      var r :| RefersTo(values, key, r) && Reaches(values, r, name, steps - 1);
      ReachesFarther(values, r, name, next, steps - 1);
    }
  }

  /** The way to a key does not pass through it. */
  lemma {:induction false} ReachesStill(values: Values, key: string, name: string, steps: nat, text: string)
    requires Reaches(values, key, name, steps)
    ensures Reaches(values[name := text], key, name, steps)
    decreases steps
  {
    hide Pieces;
    if key != name {
      var r :| RefersTo(values, key, r) && Reaches(values, r, name, steps - 1);
      ReachesStill(values, r, name, steps - 1, text);
      assert RefersTo(values[name := text], key, r);
    }
  }

  predicate NoShorter(a: string, b: string, longer: bool) {
    if longer then |a| <= |b| else |b| <= |a|
  }

  /** Longer replacements make a longer text, and the same text only when they are the same. */
  lemma {:induction false} SubstituteMonotone(pieces: seq<Piece>, a: map<string, string>, b: map<string, string>,
                                              longer: bool)
    requires Substitute(pieces, a).Some? && Substitute(pieces, b).Some?
    requires forall p <- pieces ::
               p.Reference? && p.name in a && p.name in b ==> NoShorter(a[p.name], b[p.name], longer)
    ensures NoShorter(Substitute(pieces, a).value, Substitute(pieces, b).value, longer)
    ensures Substitute(pieces, a) == Substitute(pieces, b) ==>
              forall p <- pieces :: p.Reference? && p.name in a && p.name in b ==> a[p.name] == b[p.name]
  {
    if pieces != [] {
      var first, more := pieces[0], pieces[1..];
      assert first in pieces && forall p <- more :: p in pieces;
      SubstituteMonotone(more, a, b, longer);
      if first.Reference? && Substitute(pieces, a) == Substitute(pieces, b) {
        SameParts(a[first.name], Substitute(more, a).value, b[first.name], Substitute(more, b).value, longer);
      }
      if first.Literal? && Substitute(pieces, a) == Substitute(pieces, b) {
        SameParts(first.text, Substitute(more, a).value, first.text, Substitute(more, b).value, longer);
      }
    }
  }

  lemma SameParts(a: string, s: string, b: string, t: string, longer: bool)
    requires a + s == b + t && NoShorter(a, b, longer) && NoShorter(s, t, longer)
    ensures a == b && s == t
  {
    assert |a + s| == |a| + |s| && |b + t| == |b| + |t|;
    assert a == (a + s)[..|a|] && b == (b + t)[..|b|] && s == (a + s)[|a|..] && t == (b + t)[|b|..];
  }

  /** When the new text of a key makes its expansion longer, or shorter, it does so for every key. */
  lemma {:induction false} FullMonotone(values: Values, name: string, text: string, longer: bool, n: nat)
    requires TrimmedKeys(values) && Full(values).Keys == values.Keys
    requires name in values && name in Full(values[name := text])
    requires NoShorter(Full(values)[name], Full(values[name := text])[name], longer)
    ensures forall k <- Rounds(values[name := text], n) ::
              && k in Full(values) && k in Full(values[name := text])
              && NoShorter(Full(values)[k], Full(values[name := text])[k], longer)
  {
    hide Text.TrimSpace, Rounds, Pieces, Substitute, Full, NoShorter;
    var current := values[name := text];
    assert current.Keys == values.Keys;
    FullContains(current, n);
    forall k | k in Rounds(current, n) && k != name
      ensures NoShorter(Full(values)[k], Full(current)[k], longer)
    {
      RoundsMember(current, k, n);
      FullMonotone(values, name, text, longer, n - 1);
      FullUnfolds(values, k);
      FullUnfolds(current, k);
      forall r | RefersTo(current, k, r)
        ensures NoShorter(Full(values)[r], Full(current)[r], longer)
      {
        FoundEarlier(current, k, r, n);
      }
      Referenced(current, k);
      SubstituteMonotone(Pieces(values[k]).value, Full(values), Full(current), longer);
    }
  }

  lemma Referenced(values: Values, key: string)
    requires key in values && Pieces(values[key]).Some?
    ensures forall p <- Pieces(values[key]).value :: p.Reference? ==> RefersTo(values, key, p.name)
  {
    hide Pieces;
  }

  /** Along a way to a key whose text has changed, the same expansion at the start means the same at the end. */
  lemma {:induction false} SameAlong(values: Values, name: string, text: string, longer: bool, key: string, steps: nat)
    requires Full(values).Keys == values.Keys && Full(values[name := text]).Keys <= values.Keys
    requires forall k <- Full(values[name := text]) :: NoShorter(Full(values)[k], Full(values[name := text])[k], longer)
    requires Reaches(values, key, name, steps) && key in Full(values[name := text])
    requires Full(values[name := text])[key] == Full(values)[key]
    ensures name in Full(values[name := text]) && Full(values[name := text])[name] == Full(values)[name]
    decreases steps
  {
    hide Rounds, Pieces, Substitute, Full, NoShorter;
    if key != name {
      var current := values[name := text];
      var r :| RefersTo(values, key, r) && Reaches(values, r, name, steps - 1);
      FullUnfolds(values, key);
      FullUnfolds(current, key);
      assert RefersTo(current, key, r);
      SubstituteMonotone(Pieces(values[key]).value, Full(values), Full(current), longer);
      assert Reference(r) in Pieces(values[key]).value;
      SameAlong(values, name, text, longer, r, steps - 1);
    }
  }

  /** A new text with the same expansion changes no expansion. */
  lemma {:induction false} SameEverywhere(values: Values, name: string, text: string, n: nat)
    requires TrimmedKeys(values) && name in values && name in Full(values[name := text])
    requires name in Full(values) ==> Full(values[name := text])[name] == Full(values)[name]
    ensures Within(Rounds(values, n), Full(values[name := text]))
  {
    hide Text.TrimSpace, Rounds, Pieces, Substitute, Full;
    var current := values[name := text];
    assert current.Keys == values.Keys;
    FullContains(values, n);
    forall k | k in Rounds(values, n) && k != name
      ensures k in Full(current) && Full(current)[k] == Rounds(values, n)[k]
    {
      RoundsMember(values, k, n);
      SameEverywhere(values, name, text, n - 1);
      SubstituteMore(Pieces(values[k]).value, Rounds(values, n - 1), Full(current));
      FullHas(current, k);
    }
  }

  lemma FullHas(values: Values, key: string)
    requires TrimmedKeys(values) && key in values && Pieces(values[key]).Some?
    requires Substitute(Pieces(values[key]).value, Full(values)).Some?
    ensures key in Full(values) && Full(values)[key] == Substitute(Pieces(values[key]).value, Full(values)).value
  {
    hide Text.TrimSpace, Rounds, Pieces, Substitute;
    RoundsHas(values, key, |values| + 1);
    FullContains(values, |values| + 1);
  }

  /** A new text for a key that another reaches changes either the other's expansion or none. */
  lemma Unmoved(values: Values, name: string, text: string, key: string, steps: nat)
    requires TrimmedKeys(values) && Full(values).Keys == values.Keys && name in values
    requires Reaches(values, key, name, steps) && key in Full(values[name := text])
    requires Full(values[name := text])[key] == Full(values)[key]
    ensures Full(values[name := text]) == Full(values)
  {
    hide Text.TrimSpace, Rounds, Pieces, Substitute, Reaches;
    var current := values[name := text];
    assert current.Keys == values.Keys;
    ReachesStill(values, key, name, steps, text);
    ReachedFound(current, key, name, steps, |current|);
    var longer := |Full(values)[name]| <= |Full(current)[name]|;
    FullMonotone(values, name, text, longer, |current|);
    SameAlong(values, name, text, longer, key, steps);
    SameEverywhere(values, name, text, |values|);
  }

  // ---- a referenced key with a placeholder ----

  /** Some keys have been overwritten by what they stand for. */
  function Over(values: Values, done: set<string>): Values {
    map k | k in values :: if k in done && k in Full(values) then Full(values)[k] else values[k]
  }

  /** A key stands for the same whichever other keys have been overwritten. */
  ghost predicate Steady(values: Values, key: string) {
    forall done: set<string> :: key !in done ==>
      key in Full(Over(values, done)) && key in Full(values) && Full(Over(values, done))[key] == Full(values)[key]
  }

  /**
   From an overwritten key with a placeholder a reference leads to another key with one, until to one that has not been
   overwritten.
   */
  lemma {:induction false} Undone(values: Values, key: string, done: set<string>, name: string, steps: nat, n: nat)
    returns (found: string, way: nat)
    requires Full(Over(values, done)) == Full(values) && Reaches(Over(values, done), key, name, steps)
    requires name in Rounds(Over(values, done), n) && key !in Rounds(Over(values, done), n)
    requires name in Full(values) && !SplitFirst(Full(values)[name]).Plain?
    ensures found in Full(values) && !SplitFirst(Full(values)[found]).Plain?
    ensures found !in done && found != key && Reaches(Over(values, done), key, found, way)
    decreases n
  {
    hide Text.TrimSpace, Rounds, Pieces, Substitute, Reaches, SplitFirst, Full;
    if name !in done {
      return name, steps;
    }
    var current, text := Over(values, done), Full(values)[name];
    FullUnfolds(current, name);
    assert current[name] == text;
    assert text[0..] == text;
    UnclosedPieces(text);
    Cut(text, 0, 0, Full(values));
    var a :| Reference(a) in Pieces(text).value && a in Full(values) && !SplitFirst(Full(values)[a]).Plain?;
    FoundEarlier(current, name, a, n);
    RoundsGrow(current, n - 1, n);
    ReachesFarther(current, key, name, a, steps);
    found, way := Undone(values, key, done, a, steps + 1, n - 1);
  }

  /** A steady key reaches no key whose expansion has a placeholder, except itself. */
  lemma {:induction false} SteadyReach(values: Values, key: string, done: set<string>, name: string, steps: nat)
    requires TrimmedKeys(values) && Full(values).Keys == values.Keys && Steady(values, key)
    requires key in values && key !in done && Full(Over(values, done)) == Full(values)
    requires name in values && name != key && Reaches(Over(values, done), key, name, steps)
    ensures SplitFirst(Full(values)[name]).Plain?
    decreases |values.Keys - done|
  {
    hide Text.TrimSpace, Rounds, Pieces, Substitute, SplitFirst, Full, Steady;
    if !SplitFirst(Full(values)[name]).Plain? {
      var current := Over(values, done);
      var n := Below(current, key, name, steps);
      var found, way := Undone(values, key, done, name, steps, n);
      var text := Full(values)[found];
      assert Over(values, done + {found}) == current[found := text];
      SteadyAt(values, key, done + {found});
      assert current.Keys == values.Keys;
      Unmoved(current, found, text, key, way);
      ReachesStill(current, key, found, way, text);
      Left(values.Keys, done, found);
      SteadyReach(values, key, done + {found}, found, way);
    }
  }

  lemma SteadyAt(values: Values, key: string, done: set<string>)
    requires Steady(values, key) && key !in done
    ensures key in Full(Over(values, done)) && key in Full(values) && Full(Over(values, done))[key] == Full(values)[key]
  {
    hide Full, Over;
  }

  /** Rounds that find a key another reaches, but not that one. */
  lemma Below(values: Values, key: string, name: string, steps: nat) returns (n: nat)
    requires key in Full(values) && name != key && Reaches(values, key, name, steps)
    ensures name in Rounds(values, n) && key !in Rounds(values, n)
  {
    hide Rounds, RefersTo, FirstRound;
    var m := FirstRound(values, key, |values|);
    FirstRoundIs(values, key, |values|);
    var r :| RefersTo(values, key, r) && Reaches(values, r, name, steps - 1);
    FoundEarlier(values, key, r, m);
    ReachedFound(values, r, name, steps - 1, m - 1);
    n := m - 1;
  }

  /** When every key is steady, the expansions of referenced keys have no placeholders. */
  lemma SteadyClean(values: Values)
    requires TrimmedKeys(values) && Full(values).Keys == values.Keys && forall k <- values :: Steady(values, k)
    ensures ReferencedClean(values)
  {
    hide Text.TrimSpace, Rounds, Pieces, Substitute, SplitFirst, Full, Steady, RefersTo, FirstRound;
    forall k, name | k in values && name in Full(values) && RefersTo(values, k, name)
      ensures SplitFirst(Full(values)[name]).Plain?
    {
      var m := FirstRound(values, k, |values|);
      FullIsRounds(values);
      FirstRoundIs(values, k, |values|);
      FoundEarlier(values, k, name, m);
      assert Over(values, {}) == values;
      assert Reaches(values, name, name, 0);
      SteadyReach(values, k, {}, name, 1);
    }
  }

  // ---- walks ----

  /** Only the texts of some keys have changed. */
  predicate Kept(values: Values, current: Values, order: seq<string>) {
    current.Keys == values.Keys && forall k <- values :: k !in order ==> current[k] == values[k]
  }

  lemma {:induction false} WalkKeeps(values: Values, order: seq<string>)
    requires (forall k <- order :: k in values) && Walk(values, order).Ok?
    ensures Kept(values, Walk(values, order).value, order)
    decreases |order|
  {
    hide ExpandProperty;
    if order != [] {
      var next := values[order[0] := ExpandProperty(values, order[0], {}).value];
      assert next.Keys == values.Keys && forall k <- order[1..] :: k in order;
      WalkKeeps(next, order[1..]);
    }
  }

  /** When every walk ends with the expansions, every key is steady: the others may have been walked before it. */
  lemma WalksSteady(values: Values, key: string)
    requires TrimmedKeys(values) && key in values && Full(values).Keys == values.Keys
    requires forall order :: IsOrder(values.Keys, order) ==> Walk(values, order) == Ok(Full(values))
    ensures Steady(values, key)
  {
    hide Text.TrimSpace, Full, Walk, Over;
    forall done: set<string> | key !in done
      ensures key in Full(Over(values, done)) && Full(Over(values, done))[key] == Full(values)[key]
    {
      WalkOver(values, key, done);
    }
  }

  lemma WalkOver(values: Values, key: string, done: set<string>)
    requires TrimmedKeys(values) && key in values && Full(values).Keys == values.Keys && key !in done
    requires forall order :: IsOrder(values.Keys, order) ==> Walk(values, order) == Ok(Full(values))
    ensures key in Full(Over(values, done)) && Full(Over(values, done))[key] == Full(values)[key]
  {
    hide Text.TrimSpace, Full, Walk, ExpandProperty, IsOrder, Kept, Over;
    var first, last := Listing(done * values.Keys), Listing(values.Keys - done - {key});
    OrderParts(values.Keys, done, key, first, last);
    var current := WalkParts(values, first, key, last, Full(values));
    HalfWay(values, current, done, key, first, last);
    PropertyIsFull(current, key);
  }

  /** A walk from the middle on. */
  lemma WalkParts(values: Values, first: seq<string>, key: string, last: seq<string>,
                  final: Values) returns (current: Values)
    requires Walk(values, first + ([key] + last)) == Ok(final) && key in values && key !in last
    requires (forall k <- first :: k in values) && forall k <- last :: k in values
    ensures Kept(values, current, first) && Kept(current, final, [key] + last)
    ensures key in final && ExpandProperty(current, key, {}) == Ok(final[key])
  {
    hide Walk, ExpandProperty;
    WalkAppend(values, first, [key] + last);
    current := Walk(values, first).value;
    WalkKeeps(values, first);
    WalkHead(current, key, last);
    WalkKeeps(current[key := ExpandProperty(current, key, {}).value], last);
  }

  /** In the middle of a walk the keys walked have the texts they end with, the others those they began with. */
  lemma HalfWay(values: Values, current: Values, done: set<string>, key: string, first: seq<string>, last: seq<string>)
    requires Full(values).Keys == values.Keys && key !in done
    requires forall k :: k in first <==> k in done * values.Keys
    requires forall k :: k in last <==> k in values.Keys - done - {key}
    requires Kept(values, current, first) && Kept(current, Full(values), [key] + last)
    ensures current == Over(values, done) && current.Keys == values.Keys
  {
    hide Full;
  }

  lemma WalkHead(values: Values, key: string, order: seq<string>)
    requires Walk(values, [key] + order).Ok?
    ensures ExpandProperty(values, key, {}).Ok?
    ensures Walk(values, [key] + order) == Walk(values[key := ExpandProperty(values, key, {}).value], order)
  {
    hide ExpandProperty;
    assert ([key] + order)[1..] == order;
  }

  lemma OrderParts(keys: set<string>, done: set<string>, key: string, first: seq<string>, last: seq<string>)
    requires key in keys && key !in done && IsOrder(done * keys, first) && IsOrder(keys - done - {key}, last)
    ensures IsOrder(keys, first + ([key] + last)) && key !in last
    ensures (forall k <- first :: k in keys) && forall k <- last :: k in keys
    ensures forall k :: k in first <==> k in done * keys
    ensures forall k :: k in last <==> k in keys - done - {key}
  {
    assert multiset(keys) == multiset(done * keys) + multiset{key} + multiset(keys - done - {key});
    assert forall k :: k in first <==> k in multiset(first);
    assert forall k :: k in last <==> k in multiset(last);
  }

  lemma Highest(keys: set<string>, rank: map<string, nat>) returns (key: string)
    requires keys != {} && keys <= rank.Keys
    ensures key in keys && forall k <- keys :: rank[k] <= rank[key]
    decreases |keys|
  {
    key :| key in keys;
    if keys != {key} {
      var other := Highest(keys - {key}, rank);
      if rank[key] < rank[other] { key := other; }
    }
  }

  /** Keys whose references have not been walked stand for what they did. */
  lemma {:induction false} UntouchedSame(values: Values, current: Values, rest: set<string>, n: nat)
    requires (forall k <- rest :: k in values && k in current && current[k] == values[k])
    requires forall k <- rest, r | RefersTo(values, k, r) :: r in rest
    ensures forall k <- rest ::
              k in Rounds(values, n) ==> k in Rounds(current, n) && Rounds(current, n)[k] == Rounds(values, n)[k]
  {
    hide Pieces, Substitute, Rounds;
    forall k | k in rest && k in Rounds(values, n)
      ensures k in Rounds(current, n) && Rounds(current, n)[k] == Rounds(values, n)[k]
    {
      RoundsMember(values, k, n);
      UntouchedSame(values, current, rest, n - 1);
      Referenced(values, k);
      SubstituteAgree(Pieces(values[k]).value, Rounds(values, n - 1), Rounds(current, n - 1));
      RoundsHas(current, k, n);
    }
  }

  /** Walking every key before the keys it refers to ends with the expansions. */
  lemma {:induction false} DownwardWalk(values: Values, rank: map<string, nat>, current: Values, rest: set<string>)
    returns (order: seq<string>)
    requires TrimmedKeys(values) && Full(values).Keys == values.Keys && Ordered(values, rank)
             && Progress(values, current, rest)
    requires forall k <- rest, r | RefersTo(values, k, r) :: r in rest
    ensures IsOrder(rest, order) && Walk(current, order) == Ok(Full(values))
    decreases |rest|
  {
    hide Text.TrimSpace, Full, Rounds, ExpandProperty, Pieces, RefersTo, IsOrder;
    if rest == {} {
      assert IsOrder(rest, []) by { EmptyOrder(); }
      assert current == Full(values);
      return [];
    }
    var key := Highest(rest, rank);
    UntouchedExpands(values, current, rest, key);
    var next := current[key := Full(values)[key]];
    RestCloses(values, rank, rest, key);
    var more := DownwardWalk(values, rank, next, rest - {key});
    order := [key] + more;
    assert order[1..] == more;
    OneMore(rest, key, more);
  }

  lemma UntouchedExpands(values: Values, current: Values, rest: set<string>, key: string)
    requires TrimmedKeys(values) && Full(values).Keys == values.Keys && Progress(values, current, rest) && key in rest
    requires forall k <- rest, r | RefersTo(values, k, r) :: r in rest
    ensures ExpandProperty(current, key, {}) == Ok(Full(values)[key])
  {
    hide Text.TrimSpace, Full, Rounds, ExpandProperty, RefersTo;
    UntouchedSame(values, current, rest, |values|);
    FullIsRounds(values);
    FullContains(current, |values|);
    PropertyIsFull(current, key);
  }

  /** Without its highest key a set still holds what its keys refer to. */
  lemma RestCloses(values: Values, rank: map<string, nat>, rest: set<string>, key: string)
    requires Ordered(values, rank) && rest <= rank.Keys && key in rest && forall k <- rest :: rank[k] <= rank[key]
    requires forall k <- rest, r | RefersTo(values, k, r) :: r in rest
    ensures forall k <- rest - {key}, r | RefersTo(values, k, r) :: r in rest - {key}
  {
    hide Pieces;
  }

  lemma EmptyOrder()
    ensures IsOrder({}, [])
  {
  }

  lemma OneMore(keys: set<string>, key: string, order: seq<string>)
    requires key in keys && IsOrder(keys - {key}, order)
    ensures IsOrder(keys, [key] + order)
  {
    assert multiset(keys) == multiset{key} + multiset(keys - {key});
  }

  /** Two walks both fail, or leave the same values. */
  predicate Alike(a: Result<Values, Error>, b: Result<Values, Error>) {
    (a.Ok? <==> b.Ok?) && (a.Ok? ==> a.value == b.value)
  }

  /** The order of the walk changes neither whether it succeeds nor the values. */
  ghost predicate OrderFree(values: Values) {
    forall a, b :: IsOrder(values.Keys, a) && IsOrder(values.Keys, b) ==> Alike(Walk(values, a), Walk(values, b))
  }

  /**
   Whatever the properties, the order does not matter exactly when they fail or no referenced key has a placeholder
   left.
   */
  lemma OrderMattersIff(values: Values)
    requires TrimmedKeys(values)
    ensures OrderFree(values) <==> (Full(values).Keys == values.Keys ==> ReferencedClean(values))
  {
    hide Text.TrimSpace, Full, Walk, IsOrder, ReferencedClean;
    forall order | IsOrder(values.Keys, order)
      ensures Walk(values, order).Ok? ==> Full(values).Keys == values.Keys
      ensures ReferencedClean(values) && Full(values).Keys == values.Keys ==> Walk(values, order) == Ok(Full(values))
    {
      WalkOutcome(values, order);
    }
    if OrderFree(values) && Full(values).Keys == values.Keys {
      ResolvableIffAcyclic(values);
      var rank :| Ordered(values, rank);
      OrderedCloses(values, rank);
      var best := DownwardWalk(values, rank, values, values.Keys);
      forall k | k in values
        ensures Steady(values, k)
      {
        WalksSteady(values, k);
      }
      SteadyClean(values);
    }
  }

  lemma OrderedCloses(values: Values, rank: map<string, nat>)
    requires Ordered(values, rank)
    ensures forall k <- values.Keys, r | RefersTo(values, k, r) :: r in values.Keys
  {
    hide Pieces;
  }

  // ---- three properties ----

  lemma LetterPlaceholder(c: char, rest: string)
    requires !Text.IsSpace(c) && c != '}'
    ensures SplitFirst(['$', '{', c, '}'] + rest) == At("", [c], rest)
  {
    var s := ['$', '{', c, '}'] + rest;
    assert OpenAt(s) == 0;
    assert s[2..] == [c, '}'] + rest;
    assert s[2..][1..] == ['}'] + rest;
    assert CloseAt(s[2..]) == 1;
    assert s[2..3] == [c] && s[4..] == rest;
    LetterTrimmed(c);
  }

  lemma LetterTrimmed(c: char)
    requires !Text.IsSpace(c)
    ensures Text.TrimSpace([c]) == [c]
  {
  }

  lemma LetterExpands(values: Values, c: char, rest: string, stack: set<string>)
    requires !Text.IsSpace(c) && c != '}'
    ensures var r := ExpandProperty(values, [c], stack);
            ExpandText(values, ['$', '{', c, '}'] + rest, stack)
            == if r.Err? then r else Before(r.value, ExpandText(values, rest, stack))
  {
    hide SplitFirst, ExpandProperty, ExpandText, Before, Text.TrimSpace;
    LetterPlaceholder(c, rest);
    ExpandAt(values, ['$', '{', c, '}'] + rest, stack);
    var r := ExpandProperty(values, [c], stack);
    if r.Ok? { EmptyFirst(r.value); }
  }

  lemma EmptyFirst(s: string)
    ensures "" + s == s
  {
  }

  lemma ExpandAt(values: Values, s: string, stack: set<string>)
    requires SplitFirst(s).At?
    ensures var split := SplitFirst(s); var r := ExpandProperty(values, split.name, stack);
            ExpandText(values, s, stack)
            == if r.Err? then r else Before(split.before + r.value, ExpandText(values, split.rest, stack))
  {
    hide SplitFirst, ExpandProperty, Before;
  }

  lemma LetterProperty(values: Values, c: char, stack: set<string>)
    requires !Text.IsSpace(c) && [c] in values && [c] !in stack
    ensures ExpandProperty(values, [c], stack) == ExpandText(values, values[[c]], stack + {[c]})
  {
    LetterTrimmed(c);
    hide ExpandText, Text.TrimSpace;
  }

  lemma PlainExpands(values: Values, stack: set<string>)
    ensures ExpandText(values, "$", stack) == Ok("$") && ExpandText(values, "{a}", stack) == Ok("{a}")
    ensures ExpandText(values, "", stack) == Ok("")
  {
    assert "{a}"[1..] == "a}" && "a}"[1..] == "}";
  }

  /**
   Three properties that end differently: `e` stands for `${a}` when it is walked before `d`, and for `$` when it is
   walked after, because by then `d` holds the placeholder that its dollar sign made.
   */
  lemma DollarOrderMatters()
    ensures var values := map["a" := "$", "d" := "${a}{a}", "e" := "${d}"];
            && IsOrder(values.Keys, ["e", "d", "a"]) && IsOrder(values.Keys, ["d", "e", "a"])
            && Walk(values, ["e", "d", "a"]) == Ok(map["a" := "$", "d" := "${a}", "e" := "${a}"])
            && Walk(values, ["d", "e", "a"]) == Ok(map["a" := "$", "d" := "${a}", "e" := "$"])
  {
    hide ExpandText, ExpandProperty, Walk;
    var values := Three("${a}{a}", "${d}");
    assert values.Keys == {"a", "d", "e"};
    Literals();
    DExpands(values, {});
    DExpands(values, {"e"});
    EExpands(values, "${a}");
    DExpands(Three("${a}{a}", "${a}"), {});
    EndsWithA("${a}", "${a}");
    assert Three("${a}{a}", "${a}")["d" := "${a}"] == Three("${a}", "${a}");
    ThreeSteps(values, "e", Three("${a}{a}", "${a}"), "d", Three("${a}", "${a}"), "a", Three("${a}", "${a}"));
    AfterOverwriting(Three("${a}", "${d}"));
    EndsWithA("${a}", "$");
    ThreeSteps(values, "d", Three("${a}", "${d}"), "e", Three("${a}", "$"), "a", Three("${a}", "$"));
  }

  function Three(d: string, e: string): Values {
    map["a" := "$", "d" := d, "e" := e]
  }

  /** One step of a walk. */
  predicate Steps(values: Values, key: string, next: Values) {
    var r := ExpandProperty(values, key, {});
    r.Ok? && next == values[key := r.value]
  }

  lemma ThreeSteps(values: Values, a: string, one: Values, b: string, two: Values, c: string, three: Values)
    requires Steps(values, a, one) && Steps(one, b, two) && Steps(two, c, three)
    ensures Walk(values, [a, b, c]) == Ok(three)
  {
    hide ExpandProperty;
    assert [a, b, c][1..] == [b, c] && [b, c][1..] == [c] && [c][1..] == [];
    assert Walk(three, []) == Ok(three);
    assert Walk(two, [c]) == Walk(three, []);
    assert Walk(one, [b, c]) == Walk(two, [c]);
  }

  lemma EndsWithA(d: string, e: string)
    ensures Steps(Three(d, e), "a", Three(d, e))
  {
    hide ExpandText;
    LetterProperty(Three(d, e), 'a', {});
    PlainExpands(Three(d, e), {} + {"a"});
  }

  lemma Literals()
    ensures "${a}{a}" == ['$', '{', 'a', '}'] + "{a}" && "${d}" == ['$', '{', 'd', '}'] + ""
    ensures "${a}" == ['$', '{', 'a', '}'] + ""
  {
  }

  lemma AfterOverwriting(values: Values)
    requires "a" in values && "d" in values && "e" in values
    requires values["a"] == "$" && values["d"] == "${a}" && values["e"] == "${d}"
    ensures ExpandProperty(values, "e", {}) == Ok("$")
  {
    hide ExpandText, ExpandProperty;
    Literals();
    AExpands(values, {"e"} + {"d"});
    LetterProperty(values, 'd', {"e"});
    EExpands(values, "$");
  }

  lemma AExpands(values: Values, stack: set<string>)
    requires "a" in values && values["a"] == "$" && "a" !in stack
    ensures ExpandText(values, ['$', '{', 'a', '}'] + "", stack) == Ok("$")
    ensures ExpandText(values, ['$', '{', 'a', '}'] + "{a}", stack) == Ok("${a}")
  {
    hide ExpandText, ExpandProperty;
    LetterProperty(values, 'a', stack);
    PlainExpands(values, stack + {"a"});
    PlainExpands(values, stack);
    LetterExpands(values, 'a', "", stack);
    LetterExpands(values, 'a', "{a}", stack);
    assert "$" + "" == "$" && "$" + "{a}" == "${a}";
  }

  lemma DExpands(values: Values, stack: set<string>)
    requires "a" in values && values["a"] == "$" && "a" !in stack && "d" in values && "d" !in stack
    requires values["d"] == ['$', '{', 'a', '}'] + "{a}"
    ensures ExpandProperty(values, "d", stack) == Ok("${a}")
  {
    hide ExpandText, ExpandProperty;
    LetterProperty(values, 'd', stack);
    AExpands(values, stack + {"d"});
  }

  lemma EExpands(values: Values, text: string)
    requires "e" in values && values["e"] == ['$', '{', 'd', '}'] + "" && ExpandProperty(values, "d", {"e"}) == Ok(text)
    ensures ExpandProperty(values, "e", {}) == Ok(text)
  {
    hide ExpandText, ExpandProperty;
    LetterProperty(values, 'e', {});
    assert {} + {"e"} == {"e"};
    LetterExpands(values, 'd', "", {"e"});
    PlainExpands(values, {"e"});
    assert text + "" == text;
  }
}
