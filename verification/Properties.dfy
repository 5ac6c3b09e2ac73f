/**
 The placeholder properties of mybatis_properties.go. Values are overwritten by their expansions while the map is walked
 in any order; the outcome is compared with plain repeated substitution in the values as they were given.
 */
module Properties {
  import opened Prelude
  import Text

  datatype Error = NameRequired | Duplicate | NotDefined(name: string) | Circular(name: string) | NotClosed

  type Values = map<string, string>

  // ---- placeholders ----

  /** The index of the first `${`, or the length of the text. */
  function OpenAt(s: string): (i: nat)
    ensures i <= |s|
    ensures i < |s| ==> i + 2 <= |s| && s[i] == '$' && s[i + 1] == '{'
    ensures forall j :: 0 <= j < i && j + 1 < |s| ==> !(s[j] == '$' && s[j + 1] == '{')
  {
    if |s| < 2 then |s|
    else if s[0] == '$' && s[1] == '{' then 0
    else
      assert forall j :: 1 <= j < |s| ==> s[j] == s[1..][j - 1];
      1 + OpenAt(s[1..])
  }

  /** The index of the first `}`, or the length of the text. */
  function CloseAt(s: string): (i: nat)
    ensures i <= |s| && (i < |s| ==> s[i] == '}')
    ensures forall j :: 0 <= j < i ==> s[j] != '}'
  {
    if s == "" || s[0] == '}' then 0 else 1 + CloseAt(s[1..])
  }

  /** A text without placeholder, one that is not closed, or what is before, in and after the first one. */
  datatype Split = Plain | Unclosed | At(before: string, name: string, rest: string)

  function SplitFirst(s: string): (r: Split)
    ensures r.At? ==> |r.rest| < |s| && |Text.TrimSpace(r.name)| < |s| && Text.TrimSpace(r.name) == r.name
  {
    var i := OpenAt(s);
    if i == |s| then Plain
    else
      var n := CloseAt(s[i + 2..]);
      if n == |s| - i - 2 then Unclosed
      else
        Text.TrimTwice(s[i + 2..i + 2 + n]);
        At(s[..i], Text.TrimSpace(s[i + 2..i + 2 + n]), s[i + 3 + n..])
  }

  datatype Piece = Literal(text: string) | Reference(name: string)

  /** The text as literals and references, unless a placeholder is not closed. */
  function Pieces(s: string): Option<seq<Piece>>
    decreases |s|
  {
    match SplitFirst(s)
    case Plain => Some([Literal(s)])
    case Unclosed => None
    case At(before, name, rest) =>
      match Pieces(rest)
      case None => None
      case Some(more) => Some([Literal(before), Reference(name)] + more)
  }

  // ---- what the source computes ----

  function ExpandProperty(values: Values, name: string, stack: set<string>): Result<string, Error>
    decreases values.Keys - stack, |Text.TrimSpace(name)|, 0
  {
    var key := Text.TrimSpace(name);
    if key == "" then Err(NameRequired)
    else if key !in values then Err(NotDefined(key))
    else if key in stack then Err(Circular(key))
    else ExpandText(values, values[key], stack + {key})
  }

  /** Resolving a text piece by piece: the literal, the value of the reference, and the rest. */
  function ExpandText(values: Values, s: string, stack: set<string>): Result<string, Error>
    decreases values.Keys - stack, |s|, 1
  {
    match SplitFirst(s)
    case Plain => Ok(s)
    case Unclosed => Err(NotClosed)
    case At(before, name, rest) =>
      match ExpandProperty(values, name, stack)
      case Err(e) => Err(e)
      case Ok(text) => Before(before + text, ExpandText(values, rest, stack))
  }

  function Before(s: string, r: Result<string, Error>): Result<string, Error> {
    if r.Ok? then Ok(s + r.value) else r
  }

  lemma BeforeNothing(r: Result<string, Error>)
    ensures Before("", r) == r
  {
    if r.Ok? { assert "" + r.value == r.value; }
  }

  lemma BeforeTwice(a: string, b: string, r: Result<string, Error>)
    ensures Before(a, Before(b, r)) == Before(a + b, r)
  {
    if r.Ok? { assert a + (b + r.value) == a + b + r.value; }
  }

  /** The first placeholder after an index. */
  lemma SplitAt(value: string, cursor: nat)
    requires cursor <= |value|
    ensures var start := cursor + OpenAt(value[cursor..]); var split := SplitFirst(value[cursor..]);
            && start <= |value| && (start < |value| ==> start + 2 <= |value|)
            && if start == |value| then split.Plain?
               else
                 var n := CloseAt(value[start + 2..]);
                 split == if n == |value| - start - 2 then Unclosed
                          else At(value[cursor..start], Text.TrimSpace(value[start + 2..start + 2 + n]),
                                  value[start + 3 + n..])
  {
    hide Text.TrimSpace, OpenAt, CloseAt;
    var rest := value[cursor..];
    var i := OpenAt(rest);
    var start := cursor + i;
    if i < |rest| {
      assert rest[i + 2..] == value[start + 2..];
      var n := CloseAt(value[start + 2..]);
      if n < |value| - start - 2 {
        assert rest[i + 2..i + 2 + n] == value[start + 2..start + 2 + n];
        assert rest[i + 3 + n..] == value[start + 3 + n..];
        assert rest[..i] == value[cursor..start];
      }
    }
  }

  /** One turn of the loop over a text: what has been built, and what the rest will give. */
  lemma Turn(values: Values, value: string, builder: string, cursor: nat, stack: set<string>)
    requires cursor <= |value|
    ensures var start := cursor + OpenAt(value[cursor..]);
            var whole := Before(builder, ExpandText(values, value[cursor..], stack));
            && start <= |value| && (start < |value| ==> start + 2 <= |value|)
            && if start == |value| then whole == Ok(builder + value[cursor..])
               else
                 var n := CloseAt(value[start + 2..]);
                 if n == |value| - start - 2 then whole == Err(NotClosed)
                 else
                   var r := ExpandProperty(values, Text.TrimSpace(value[start + 2..start + 2 + n]), stack);
                   whole == if r.Err? then r
                            else Before(builder + value[cursor..start] + r.value,
                                        ExpandText(values, value[start + 3 + n..], stack))
  {
    hide ExpandProperty, OpenAt, CloseAt, SplitFirst, Text.TrimSpace;
    SplitAt(value, cursor);
    var split := SplitFirst(value[cursor..]);
    if split.At? {
      var r := ExpandProperty(values, split.name, stack);
      if r.Ok? {
        BeforeTwice(builder, split.before + r.value, ExpandText(values, split.rest, stack));
        assert builder + (split.before + r.value) == builder + split.before + r.value;
      }
    }
  }

  /**
   The name of the placeholder that starts at an index, and the index of its closing brace or the length of the text.
   */
  method ReadReference(value: string, start: nat) returns (end: nat, name: string)
    requires start + 2 <= |value|
    ensures start + 2 <= end <= |value| && end == start + 2 + CloseAt(value[start + 2..])
    ensures name == Text.TrimSpace(value[start + 2..end])
    ensures |Text.TrimSpace(name)| < |value|
  {
    var nameStart := start + 2;
    end := nameStart + CloseAt(value[nameStart..]);
    Text.TrimTwice(value[nameStart..end]);
    name := Text.TrimSpace(value[nameStart..end]);
  }

  /** Before the loop. */
  lemma Whole(values: Values, value: string, stack: set<string>)
    ensures value[0..] == value && Before("", ExpandText(values, value, stack)) == ExpandText(values, value, stack)
    ensures OpenAt(value) <= |value| && (OpenAt(value) == |value| ==> ExpandText(values, value, stack) == Ok(value))
  {
    hide ExpandProperty;
    BeforeNothing(ExpandText(values, value, stack));
  }

  class Stack {
    var names: set<string>

    constructor ()
      ensures names == {}
    {
      names := {};
    }
  }

  class Resolver {
    var values: Values

    constructor (values: Values)
      ensures this.values == values
    {
      this.values := values;
    }

    /** The stack is put back, also when there is an error. */
    method ResolveProperty(name: string, stack: Stack) returns (r: Result<string, Error>)
      modifies stack
      ensures r == ExpandProperty(values, name, old(stack.names)) && stack.names == old(stack.names)
      decreases values.Keys - stack.names, |Text.TrimSpace(name)|, 0
    {
      var key := Text.TrimSpace(name);
      if key == "" {
        return Err(NameRequired);
      }
      if key !in values {
        return Err(NotDefined(key));
      }
      if key in stack.names {
        return Err(Circular(key));
      }
      stack.names := stack.names + {key};
      r := ResolveString(values[key], stack);
      stack.names := stack.names - {key};
    }

    method ResolveString(value: string, stack: Stack) returns (r: Result<string, Error>)
      modifies stack
      ensures r == ExpandText(values, value, old(stack.names)) && stack.names == old(stack.names)
      decreases values.Keys - stack.names, |value|, 1
    {
      hide ExpandProperty, ExpandText, Before, OpenAt, CloseAt, Text.TrimSpace;
      ghost var all := ExpandText(values, value, stack.names);
      Whole(values, value, stack.names);
      var start := OpenAt(value);
      if start == |value| {
        return Ok(value);
      }
      var builder := "";
      var cursor := 0;
      while start < |value|
        invariant cursor <= start <= |value| && start == cursor + OpenAt(value[cursor..])
                  && stack.names == old(stack.names)
        invariant Before(builder, ExpandText(values, value[cursor..], stack.names)) == all
        decreases |value| - cursor
      {
        var replaced, next := ResolveNext(value, builder, cursor, start, stack);
        if replaced.Err? {
          return replaced;
        }
        builder := replaced.value;
        cursor := next;
        start := cursor + OpenAt(value[cursor..]);
      }
      Turn(values, value, builder, cursor, stack.names);
      return Ok(builder + value[cursor..]);
    }

    /** The body of the loop: the text built so far with one more literal and replacement, and where to go on. */
    method ResolveNext(value: string, builder: string, cursor: nat, start: nat, stack: Stack)
      returns (replaced: Result<string, Error>, next: nat)
      requires cursor <= start < |value| && start == cursor + OpenAt(value[cursor..])
      modifies stack
      ensures stack.names == old(stack.names)
      ensures var whole := Before(builder, ExpandText(values, value[cursor..], stack.names));
              match replaced
              case Err(e) => whole == Err(e)
              case Ok(text) =>
                cursor < next <= |value| && whole == Before(text, ExpandText(values, value[next..], stack.names))
      decreases values.Keys - stack.names, |value|, 0
    {
      hide ExpandProperty, ExpandText, Before, OpenAt, CloseAt, Text.TrimSpace;
      Turn(values, value, builder, cursor, stack.names);
      var end, name := ReadReference(value, start);
      if end == |value| {
        return Err(NotClosed), 0;
      }
      var replacement := ResolveProperty(name, stack);
      if replacement.Err? {
        return replacement, 0;
      }
      return Ok(builder + value[cursor..start] + replacement.value), end + 1;
    }
  }

  // ---- repeated substitution ----

  /** The pieces of a text, with every reference replaced by a text. */
  function Substitute(pieces: seq<Piece>, texts: map<string, string>): Option<string> {
    if pieces == [] then Some("")
    else
      var first := match pieces[0]
                   case Literal(t) => Some(t)
                   case Reference(name) => if name in texts then Some(texts[name]) else None;
      match (first, Substitute(pieces[1..], texts))
      case (Some(a), Some(b)) => Some(a + b)
      case _ => None
  }

  /** The texts of the keys that can be written out in n rounds of substitution. */
  function Rounds(values: Values, n: nat): (texts: map<string, string>)
    ensures texts.Keys <= values.Keys
  {
    if n == 0 then map[]
    else
      var before := Rounds(values, n - 1);
      map k | k in values && Pieces(values[k]).Some? && Substitute(Pieces(values[k]).value, before).Some?
        :: Substitute(Pieces(values[k]).value, before).value
  }

  /** What every key stands for once nothing more can be substituted. */
  function Full(values: Values): (texts: map<string, string>)
    ensures texts.Keys <= values.Keys
  {
    Rounds(values, |values|)
  }

  /** One map agrees with another where it is defined. */
  predicate Within(a: map<string, string>, b: map<string, string>) {
    forall k <- a :: k in b && b[k] == a[k]
  }

  lemma {:induction false} SubstituteMore(pieces: seq<Piece>, a: map<string, string>, b: map<string, string>)
    requires Within(a, b) && Substitute(pieces, a).Some?
    ensures Substitute(pieces, b) == Substitute(pieces, a)
  {
    if pieces != [] { SubstituteMore(pieces[1..], a, b); }
  }

  lemma {:induction false} RoundsGrow(values: Values, n: nat, m: nat)
    requires n <= m
    ensures Within(Rounds(values, n), Rounds(values, m))
  {
    hide Pieces, Substitute;
    if n > 0 {
      RoundsGrow(values, n - 1, m - 1);
      var a, b := Rounds(values, n - 1), Rounds(values, m - 1);
      forall k | k in Rounds(values, n)
        ensures k in Rounds(values, m) && Rounds(values, m)[k] == Rounds(values, n)[k]
      {
        SubstituteMore(Pieces(values[k]).value, a, b);
      }
    }
  }

  predicate TrimmedNames(pieces: seq<Piece>) {
    forall p <- pieces :: p.Reference? ==> Text.TrimSpace(p.name) == p.name
  }

  /** The references of a text are trimmed names. */
  lemma {:induction false} PiecesTrimmed(s: string)
    ensures Pieces(s).Some? ==> TrimmedNames(Pieces(s).value)
    decreases |s|
  {
    hide Text.TrimSpace, SplitFirst;
    var split := SplitFirst(s);
    if split.At? { PiecesTrimmed(split.rest); }
  }

  /** A map has the values of all references of a text. */
  predicate Knows(values: Values, stack: set<string>, texts: map<string, string>, pieces: seq<Piece>) {
    forall p <- pieces :: p.Reference? ==>
      p.name in texts && ExpandProperty(values, p.name, stack) == Ok(texts[p.name])
  }

  /** A text is expanded when its references are, and to what substituting them gives. */
  lemma {:induction false} TextIs(values: Values, s: string, stack: set<string>, texts: map<string, string>)
    requires Pieces(s).Some? && Knows(values, stack, texts, Pieces(s).value)
    ensures Substitute(Pieces(s).value, texts).Some?
            && ExpandText(values, s, stack) == Ok(Substitute(Pieces(s).value, texts).value)
    decreases |s|
  {
    hide ExpandProperty, Text.TrimSpace, SplitFirst;
    match SplitFirst(s)
    case Plain => { assert [Literal(s)][1..] == []; assert s + "" == s; }
    case At(before, name, rest) => {
      var all, more := Pieces(s).value, Pieces(rest).value;
      assert all[1] == Reference(name) && all[1] in all && forall p <- more :: p in all;
      TextIs(values, rest, stack, texts);
      SubstituteTwo(before, name, more, texts);
    }
  }

  lemma SubstituteTwo(text: string, name: string, more: seq<Piece>, texts: map<string, string>)
    requires name in texts && Substitute(more, texts).Some?
    ensures Substitute([Literal(text), Reference(name)] + more, texts)
            == Some(text + texts[name] + Substitute(more, texts).value)
  {
    var all := [Literal(text), Reference(name)] + more;
    assert all[1..] == [Reference(name)] + more && all[1..][1..] == more;
    assert Substitute(all[1..], texts) == Some(texts[name] + Substitute(more, texts).value);
    assert text + texts[name] + Substitute(more, texts).value == text + (texts[name] + Substitute(more, texts).value);
  }

  /** A text that is expanded has only references that are. */
  lemma {:induction false} TextNeeds(values: Values, s: string, stack: set<string>)
    requires ExpandText(values, s, stack).Ok?
    ensures Pieces(s).Some? && forall p <- Pieces(s).value :: p.Reference? ==> ExpandProperty(values, p.name, stack).Ok?
    decreases |s|
  {
    hide ExpandProperty, Text.TrimSpace, SplitFirst;
    var split := SplitFirst(s);
    if split.At? { TextNeeds(values, split.rest, stack); }
  }

  lemma Left(keys: set<string>, stack: set<string>, key: string)
    requires key in keys && key !in stack
    ensures |keys - (stack + {key})| == |keys - stack| - 1
    ensures keys - (stack + {key}) < keys - stack
  {
    assert keys - stack == (keys - (stack + {key})) + {key};
  }

  /** What the recursion with a stack finds is found by substituting in rounds, as many as there are keys left. */
  lemma {:induction false} PropertySound(values: Values, key: string, stack: set<string>)
    requires Text.TrimSpace(key) == key && ExpandProperty(values, key, stack).Ok?
    ensures var texts := Rounds(values, |values.Keys - stack|);
            key in texts && texts[key] == ExpandProperty(values, key, stack).value
    decreases values.Keys - stack
  {
    hide ExpandText, Text.TrimSpace, SplitFirst, Pieces;
    Left(values.Keys, stack, key);
    var more, n := stack + {key}, |values.Keys - stack| - 1;
    TextNeeds(values, values[key], more);
    PiecesTrimmed(values[key]);
    forall p | p in Pieces(values[key]).value && p.Reference?
      ensures p.name in Rounds(values, n) && ExpandProperty(values, p.name, more) == Ok(Rounds(values, n)[p.name])
    {
      PropertySound(values, p.name, more);
    }
    TextIs(values, values[key], more, Rounds(values, n));
  }

  lemma {:induction false} SubstituteNeeds(pieces: seq<Piece>, texts: map<string, string>)
    requires Substitute(pieces, texts).Some?
    ensures forall p <- pieces :: p.Reference? ==> p.name in texts
  {
    if pieces != [] {
      SubstituteNeeds(pieces[1..], texts);
      assert forall p <- pieces :: p == pieces[0] || p in pieces[1..];
    }
  }

  lemma RoundsMember(values: Values, key: string, n: nat)
    requires key in Rounds(values, n)
    ensures n > 0 && key in values && Pieces(values[key]).Some?
    ensures Substitute(Pieces(values[key]).value, Rounds(values, n - 1)) == Some(Rounds(values, n)[key])
  {
    hide Pieces, Substitute;
  }

  lemma RoundsHas(values: Values, key: string, n: nat)
    requires n > 0 && key in values && Pieces(values[key]).Some?
    requires Substitute(Pieces(values[key]).value, Rounds(values, n - 1)).Some?
    ensures key in Rounds(values, n)
    ensures Rounds(values, n)[key] == Substitute(Pieces(values[key]).value, Rounds(values, n - 1)).value
  {
    hide Pieces, Substitute;
  }

  /** What some number of rounds finds is found by the recursion, from any stack of keys not found so early. */
  lemma {:induction false} PropertyComplete(values: Values, key: string, stack: set<string>, n: nat)
    requires Text.TrimSpace(key) == key && key in Rounds(values, n) && "" !in values
    requires stack !! Rounds(values, n).Keys
    ensures ExpandProperty(values, key, stack) == Ok(Rounds(values, n)[key])
    decreases n
  {
    hide ExpandText, Text.TrimSpace, Pieces, Substitute, Rounds;
    RoundsMember(values, key, n);
    RoundsGrow(values, n - 1, n);
    var pieces, texts, more := Pieces(values[key]).value, Rounds(values, n - 1), stack + {key};
    assert stack !! texts.Keys;
    if key in texts {
      PropertyComplete(values, key, stack, n - 1);
    } else {
      SubstituteNeeds(pieces, texts);
      PiecesTrimmed(values[key]);
      forall p | p in pieces && p.Reference?
        ensures ExpandProperty(values, p.name, more) == Ok(texts[p.name])
      {
        PropertyComplete(values, p.name, more, n - 1);
      }
      TextIs(values, values[key], more, texts);
    }
  }

  predicate TrimmedKeys(values: Values) {
    "" !in values && forall k <- values :: Text.TrimSpace(k) == k
  }

  lemma FullContains(values: Values, n: nat)
    requires TrimmedKeys(values)
    ensures Within(Rounds(values, n), Full(values))
  {
    hide ExpandProperty, Text.TrimSpace, Rounds;
    forall k | k in Rounds(values, n)
      ensures k in Full(values) && Full(values)[k] == Rounds(values, n)[k]
    {
      PropertyComplete(values, k, {}, n);
      PropertySound(values, k, {});
      assert values.Keys - {} == values.Keys && |values.Keys| == |values|;
    }
  }

  /** The recursion with a stack, started on a key, agrees with substitution in rounds. */
  lemma PropertyIsFull(values: Values, key: string)
    requires TrimmedKeys(values) && key in values
    ensures ExpandProperty(values, key, {}).Ok? <==> key in Full(values)
    ensures key in Full(values) ==> ExpandProperty(values, key, {}) == Ok(Full(values)[key])
  {
    hide ExpandProperty, Text.TrimSpace, Rounds;
    if key in Full(values) { PropertyComplete(values, key, {}, |values|); }
    if ExpandProperty(values, key, {}).Ok? {
      PropertySound(values, key, {});
      assert values.Keys - {} == values.Keys && |values.Keys| == |values|;
    }
  }

  // ---- overwriting values by their expansions ----

  /** Some values have been replaced by what they stand for. */
  predicate Overwritten(values: Values, current: Values) {
    && current.Keys == values.Keys
    && forall k <- values :: current[k] == values[k] || (k in Full(values) && current[k] == Full(values)[k])
  }

  /** No expansion has a placeholder of its own. */
  predicate Clean(values: Values) {
    forall k <- Full(values) :: SplitFirst(Full(values)[k]).Plain?
  }

  predicate RefersTo(values: Values, key: string, name: string) {
    key in values && Pieces(values[key]).Some? && Reference(name) in Pieces(values[key]).value
  }

  /** No key that some value refers to has an expansion with a placeholder of its own. */
  predicate ReferencedClean(values: Values) {
    forall k <- values, name <- Full(values) :: RefersTo(values, k, name) ==> SplitFirst(Full(values)[name]).Plain?
  }

  lemma {:induction false} SubstituteKnown(pieces: seq<Piece>, a: map<string, string>, b: map<string, string>)
    requires a.Keys <= b.Keys && Substitute(pieces, a).Some?
    ensures Substitute(pieces, b).Some?
  {
    if pieces != [] { SubstituteKnown(pieces[1..], a, b); }
  }

  /** Two maps have the same texts for the references. */
  predicate AgreeOn(pieces: seq<Piece>, a: map<string, string>, b: map<string, string>) {
    forall p <- pieces :: p.Reference? && p.name in a ==> p.name in b && b[p.name] == a[p.name]
  }

  lemma {:induction false} SubstituteAgree(pieces: seq<Piece>, a: map<string, string>, b: map<string, string>)
    requires AgreeOn(pieces, a, b) && Substitute(pieces, a).Some?
    ensures Substitute(pieces, b) == Substitute(pieces, a)
  {
    if pieces != [] {
      assert pieces[0] in pieces && forall p <- pieces[1..] :: p in pieces;
      SubstituteAgree(pieces[1..], a, b);
    }
  }

  /** Changing the texts of keys that can be expanded does not make a key expand that could not. */
  lemma {:induction false} OverwrittenNoMore(values: Values, current: Values, n: nat)
    requires TrimmedKeys(values) && current.Keys == values.Keys
    requires forall k <- values :: k in Full(values) || current[k] == values[k]
    ensures Rounds(current, n).Keys <= Full(values).Keys
  {
    hide Text.TrimSpace, Pieces, Substitute, Rounds;
    forall k | k in Rounds(current, n)
      ensures k in Full(values)
    {
      RoundsMember(current, k, n);
      if k !in Full(values) {
        OverwrittenNoMore(values, current, n - 1);
        SubstituteKnown(Pieces(values[k]).value, Rounds(current, n - 1), Full(values));
        RoundsHas(values, k, |values| + 1);
        FullContains(values, |values| + 1);
      }
    }
  }

  lemma PlainPieces(text: string, texts: map<string, string>)
    requires SplitFirst(text).Plain?
    ensures Pieces(text).Some? && Substitute(Pieces(text).value, texts) == Some(text)
  {
    assert [Literal(text)][1..] == [] && text + "" == text;
  }

  /** A key has the text it was given, or one without placeholders. */
  predicate Settled(values: Values, current: Values, key: string)
    requires key in values && key in current
  {
    current[key] == values[key] || SplitFirst(current[key]).Plain?
  }

  /** What a value refers to stays settled, when referenced keys expand to texts without placeholders. */
  lemma ReferencesSettled(values: Values, current: Values, key: string, n: nat)
    requires TrimmedKeys(values) && Overwritten(values, current) && ReferencedClean(values)
    requires key in values && Pieces(values[key]).Some?
    ensures forall p <- Pieces(values[key]).value :: p.Reference? && p.name in Rounds(values, n) ==>
              Settled(values, current, p.name)
  {
    hide Text.TrimSpace, Pieces, Rounds, SplitFirst;
    FullContains(values, n);
    forall p | p in Pieces(values[key]).value && p.Reference? && p.name in Rounds(values, n)
      ensures Settled(values, current, p.name)
    {
      assert RefersTo(values, key, p.name);
    }
  }

  /** Overwriting changes no expansion of a settled key. */
  lemma {:induction false} OverwrittenNoLess(values: Values, current: Values, n: nat)
    requires TrimmedKeys(values) && Overwritten(values, current) && ReferencedClean(values)
    ensures forall k <- Rounds(values, n) :: Settled(values, current, k) ==>
              k in Rounds(current, n) && Rounds(current, n)[k] == Rounds(values, n)[k]
  {
    hide Text.TrimSpace, Pieces, Substitute, Rounds, SplitFirst, Full, ReferencedClean;
    forall k | k in Rounds(values, n) && Settled(values, current, k)
      ensures k in Rounds(current, n) && Rounds(current, n)[k] == Rounds(values, n)[k]
    {
      RoundsMember(values, k, n);
      FullContains(values, n);
      if current[k] == values[k] {
        OverwrittenNoLess(values, current, n - 1);
        ReferencesSettled(values, current, k, n - 1);
        SubstituteAgree(Pieces(values[k]).value, Rounds(values, n - 1), Rounds(current, n - 1));
      } else {
        PlainPieces(current[k], Rounds(current, n - 1));
      }
      RoundsHas(current, k, n);
    }
  }

  /** With such references, overwriting any keys changes neither which settled keys expand nor to what. */
  lemma OverwrittenSame(values: Values, current: Values)
    requires TrimmedKeys(values) && Overwritten(values, current) && ReferencedClean(values)
    ensures Full(current).Keys <= Full(values).Keys
    ensures forall k <- Full(values) ::
              Settled(values, current, k) ==> k in Full(current) && Full(current)[k] == Full(values)[k]
    ensures Clean(values) ==> Full(current) == Full(values)
  {
    hide Text.TrimSpace, Rounds, SplitFirst, ReferencedClean;
    assert |current.Keys| == |values.Keys|;
    OverwrittenNoMore(values, current, |values|);
    OverwrittenNoLess(values, current, |values|);
  }

  // ---- walking the keys ----

  /** The keys are expanded and overwritten one after another, until one cannot be expanded. */
  function Walk(values: Values, order: seq<string>): Result<Values, Error>
    decreases |order|
  {
    if order == [] then Ok(values)
    else
      match ExpandProperty(values, order[0], {})
      case Err(e) => Err(e)
      case Ok(text) => Walk(values[order[0] := text], order[1..])
  }

  /** Every key comes once. */
  predicate IsOrder(keys: set<string>, order: seq<string>) {
    multiset(order) == multiset(keys)
  }

  lemma {:induction false} WalkAppend(values: Values, a: seq<string>, b: seq<string>)
    ensures Walk(values, a + b) == match Walk(values, a) case Ok(current) => Walk(current, b) case Err(e) => Err(e)
    decreases |a|
  {
    hide ExpandProperty;
    if a == [] {
      assert a + b == b;
    } else {
      assert (a + b)[1..] == a[1..] + b;
      var r := ExpandProperty(values, a[0], {});
      if r.Ok? { WalkAppend(values[a[0] := r.value], a[1..], b); }
    }
  }

  /** The keys of a set in some order. */
  ghost function Listing(keys: set<string>): (order: seq<string>)
    ensures IsOrder(keys, order)
  {
    if keys == {} then []
    else
      var key :| key in keys;
      assert multiset(keys) == multiset{key} + multiset(keys - {key});
      [key] + Listing(keys - {key})
  }

  lemma OrderHead(keys: set<string>, order: seq<string>)
    requires IsOrder(keys, order)
    ensures order == [] <==> keys == {}
    ensures order != [] ==> order[0] in keys && IsOrder(keys - {order[0]}, order[1..])
  {
    assert |multiset(order)| == |order| && |multiset(keys)| == |keys|;
    if order != [] {
      assert order == [order[0]] + order[1..];
      assert order[0] in multiset(order);
      assert multiset(keys - {order[0]}) == multiset(keys) - multiset{order[0]};
    }
  }

  /** All keys but some have been overwritten by what they stand for. */
  predicate Progress(values: Values, current: Values, rest: set<string>) {
    && rest <= values.Keys && current.Keys == values.Keys
    && (forall k <- rest :: current[k] == values[k])
    && forall k <- values :: k !in rest ==> k in Full(values) && current[k] == Full(values)[k]
  }

  lemma ProgressStep(values: Values, current: Values, rest: set<string>, key: string)
    requires TrimmedKeys(values) && ReferencedClean(values) && Progress(values, current, rest) && key in rest
    ensures ExpandProperty(current, key, {}).Ok? <==> key in Full(values)
    ensures key in Full(values) ==>
              Progress(values, current[key := ExpandProperty(current, key, {}).value], rest - {key})
  {
    hide Text.TrimSpace, Full, ReferencedClean, ExpandProperty;
    OverwrittenSame(values, current);
    PropertyIsFull(current, key);
  }

  /**
   A walk succeeds exactly when all keys have expansions, and leaves those, when referenced keys have no placeholders.
   */
  lemma {:induction false} WalkIsFull(values: Values, current: Values, rest: set<string>, order: seq<string>)
    requires TrimmedKeys(values) && ReferencedClean(values) && Progress(values, current, rest) && IsOrder(rest, order)
    ensures Walk(current, order).Ok? <==> rest <= Full(values).Keys
    ensures Walk(current, order).Ok? ==> Walk(current, order) == Ok(Full(values))
    decreases |order|
  {
    hide Text.TrimSpace, Full, ReferencedClean, ExpandProperty, IsOrder;
    OrderHead(rest, order);
    if order == [] {
      assert current == Full(values);
    } else {
      var key := order[0];
      ProgressStep(values, current, rest, key);
      var r := ExpandProperty(current, key, {});
      if r.Ok? { WalkIsFull(values, current[key := r.value], rest - {key}, order[1..]); }
    }
  }

  /** A key that has no expansion stops every walk that comes to it. */
  lemma {:induction false} WalkNeeds(values: Values, current: Values, rest: set<string>, order: seq<string>)
    requires TrimmedKeys(values) && rest <= values.Keys && current.Keys == values.Keys && IsOrder(rest, order)
    requires (forall k <- rest :: current[k] == values[k]) && forall k <- values :: k !in rest ==> k in Full(values)
    ensures Walk(current, order).Ok? ==> Full(values).Keys == values.Keys
    decreases |order|
  {
    hide Text.TrimSpace, Full, ExpandProperty, IsOrder;
    OrderHead(rest, order);
    if order != [] && ExpandProperty(current, order[0], {}).Ok? {
      var key := order[0];
      PropertyIsFull(current, key);
      assert key in Rounds(current, |current|) by { FullIsRounds(current); }
      OverwrittenNoMore(values, current, |current|);
      WalkNeeds(values, current[key := ExpandProperty(current, key, {}).value], rest - {key}, order[1..]);
    }
  }

  lemma FullIsRounds(values: Values)
    ensures Full(values) == Rounds(values, |values|)
  {
  }

  /**
   Every walk over the keys fails unless all of them have expansions. When the expansions of referenced keys have no
   placeholders, every walk succeeds exactly then and leaves the expansions, whatever the order.
   */
  lemma WalkOutcome(values: Values, order: seq<string>)
    requires TrimmedKeys(values) && IsOrder(values.Keys, order)
    ensures Walk(values, order).Ok? ==> Full(values).Keys == values.Keys
    ensures ReferencedClean(values) && Full(values).Keys == values.Keys ==> Walk(values, order) == Ok(Full(values))
  {
    hide Text.TrimSpace, Full, ReferencedClean, ExpandProperty, IsOrder, Walk;
    WalkNeeds(values, values, values.Keys, order);
    if ReferencedClean(values) { WalkIsFull(values, values, values.Keys, order); }
  }

  // ---- the resolver ----

  /** Property names that are not blank and stay apart when trimmed. */
  predicate GoodNames(properties: Values) {
    && (forall k <- properties :: Text.TrimSpace(k) != "")
    && (forall k, l | k in properties && l in properties && k != l :: Text.TrimSpace(k) != Text.TrimSpace(l))
  }

  /** The properties under their trimmed names. */
  function Trimmed(properties: Values): (values: Values)
    requires GoodNames(properties)
  {
    map k | k in properties :: Text.TrimSpace(k) := properties[k]
  }

  lemma TrimmedIs(properties: Values)
    requires GoodNames(properties)
    ensures TrimmedKeys(Trimmed(properties))
  {
    hide Text.TrimSpace;
    forall k | k in properties
      ensures Text.TrimSpace(Text.TrimSpace(k)) == Text.TrimSpace(k)
    {
      Text.TrimTwice(k);
    }
  }

  /** Every key can be expanded, and the names are good. */
  predicate Resolvable(properties: Values) {
    GoodNames(properties) && Full(Trimmed(properties)).Keys == Trimmed(properties).Keys
  }

  method TrimNames(properties: Values) returns (r: Result<Values, Error>)
    ensures r.Ok? <==> GoodNames(properties)
    ensures r.Ok? ==> r.value == Trimmed(properties)
  {
    hide Text.TrimSpace;
    var values: Values := map[];
    var rest := properties.Keys;
    while rest != {}
      invariant rest <= properties.Keys && "" !in values
      invariant forall k <- properties ::
                  k !in rest ==> Text.TrimSpace(k) in values && values[Text.TrimSpace(k)] == properties[k]
      invariant forall k, l | k in properties && l in properties && k != l && k !in rest && l !in rest ::
                  Text.TrimSpace(k) != Text.TrimSpace(l)
      invariant forall t <- values :: exists k :: k in properties && k !in rest && Text.TrimSpace(k) == t
      decreases |rest|
    {
      var name :| name in rest;
      rest := rest - {name};
      var key := Text.TrimSpace(name);
      if key == "" {
        return Err(NameRequired);
      }
      if key in values {
        return Err(Duplicate);
      }
      values := values[key := properties[name]];
    }
    assert values == Trimmed(properties);
    return Ok(values);
  }

  /** The resolver or the error is what a walk ended with. */
  ghost predicate EndOf(walk: Result<Values, Error>, r: Result<Resolver, Error>)
    reads if r.Ok? then {r.value} else {}
  {
    match r
    case Ok(resolver) => walk == Ok(resolver.values)
    case Err(e) => walk == Err(e)
  }

  /**
   The values are expanded and overwritten in whatever order the map is walked. It fails unless every key has an
   expansion; when no referenced key has an expansion with a placeholder of its own, it succeeds exactly then, and the
   values are the expansions.
   */
  method NewConfigPropertyResolver(properties: Values) returns (r: Result<Resolver, Error>)
    ensures r.Ok? ==> Resolvable(properties)
    ensures GoodNames(properties) ==>
              exists order :: IsOrder(Trimmed(properties).Keys, order) && EndOf(Walk(Trimmed(properties), order), r)
    ensures GoodNames(properties) && ReferencedClean(Trimmed(properties)) ==> (r.Ok? <==> Resolvable(properties))
    ensures r.Ok? && ReferencedClean(Trimmed(properties)) ==> r.value.values == Full(Trimmed(properties))
  {
    hide Text.TrimSpace, Full, ReferencedClean, Trimmed, TrimmedKeys, ExpandProperty, Walk, IsOrder;
    var trimmed := TrimNames(properties);
    if trimmed.Err? {
      return Err(trimmed.error);
    }
    TrimmedIs(properties);
    r := ResolveAll(trimmed.value);
    ghost var order :| IsOrder(trimmed.value.Keys, order) && EndOf(Walk(trimmed.value, order), r);
    WalkOutcome(trimmed.value, order);
  }

  /** The loop over the keys. */
  method ResolveAll(values: Values) returns (r: Result<Resolver, Error>)
    ensures exists order :: IsOrder(values.Keys, order) && EndOf(Walk(values, order), r)
  {
    hide ExpandProperty, Walk, IsOrder;
    var resolver := new Resolver(values);
    var rest := values.Keys;
    ghost var done: seq<string> := [];
    WalkNothing(values);
    while rest != {}
      invariant rest <= values.Keys && fresh(resolver) && OnTheWay(values, done, rest, resolver.values)
      decreases |rest|
    {
      var key :| key in rest;
      WalkKey(values, done, rest, key, resolver.values);
      rest := rest - {key};
      var stack := new Stack();
      var resolved := resolver.ResolveProperty(key, stack);
      if resolved.Err? {
        return Err(resolved.error);
      }
      resolver.values := resolver.values[key := resolved.value];
      done := done + [key];
    }
    WalkedAll(values, done, resolver.values);
    assert EndOf(Walk(values, done), Ok(resolver));
    return Ok(resolver);
  }

  /** Some keys have been walked, the others have not. */
  ghost predicate OnTheWay(values: Values, done: seq<string>, rest: set<string>, current: Values) {
    multiset(done) + multiset(rest) == multiset(values.Keys) && Walk(values, done) == Ok(current)
  }

  lemma WalkNothing(values: Values)
    ensures OnTheWay(values, [], values.Keys, values)
  {
  }

  lemma WalkedAll(values: Values, done: seq<string>, current: Values)
    requires OnTheWay(values, done, {}, current)
    ensures IsOrder(values.Keys, done) && Walk(values, done) == Ok(current)
  {
  }

  /** A walk goes on with one more key, or ends there. */
  lemma WalkKey(values: Values, done: seq<string>, rest: set<string>, key: string, current: Values)
    requires OnTheWay(values, done, rest, current) && key in rest
    ensures match ExpandProperty(current, key, {})
            case Ok(text) => OnTheWay(values, done + [key], rest - {key}, current[key := text])
            case Err(e) => exists order :: IsOrder(values.Keys, order) && Walk(values, order) == Err(e)
  {
    hide ExpandProperty;
    WalkAppend(values, done, [key]);
    assert [key][1..] == [];
    assert multiset(rest) == multiset{key} + multiset(rest - {key});
    var order := done + [key] + Listing(rest - {key});
    WalkAppend(values, done + [key], Listing(rest - {key}));
    assert IsOrder(values.Keys, order);
  }

  // ---- when properties can be resolved ----

  /** Every text is closed, every reference is to a key, and keys can be ordered so that each refers to earlier ones. */
  predicate Ordered(values: Values, rank: map<string, nat>) {
    forall k <- values ::
      && k in rank && Pieces(values[k]).Some?
      && forall p <- Pieces(values[k]).value ::
           p.Reference? ==> p.name in values && p.name in rank && rank[p.name] < rank[k]
  }

  lemma {:induction false} RankedFound(values: Values, rank: map<string, nat>, key: string, n: nat)
    requires Ordered(values, rank) && key in values && rank[key] < n
    ensures key in Rounds(values, n)
    decreases n
  {
    hide Pieces, Rounds;
    var pieces := Pieces(values[key]).value;
    forall p | p in pieces && p.Reference?
      ensures p.name in Rounds(values, n - 1)
    {
      RankedFound(values, rank, p.name, n - 1);
    }
    SubstituteAll(pieces, Rounds(values, n - 1));
    RoundsHas(values, key, n);
  }

  lemma {:induction false} SubstituteAll(pieces: seq<Piece>, texts: map<string, string>)
    requires forall p <- pieces :: p.Reference? ==> p.name in texts
    ensures Substitute(pieces, texts).Some?
  {
    if pieces != [] {
      assert pieces[0] in pieces && forall p <- pieces[1..] :: p in pieces;
      SubstituteAll(pieces[1..], texts);
    }
  }

  /** The number of rounds after which a key is first found. */
  function FirstRound(values: Values, key: string, n: nat): (m: nat)
  {
    if n > 0 && key in Rounds(values, n - 1) then FirstRound(values, key, n - 1) else n
  }

  lemma {:induction false} FirstRoundIs(values: Values, key: string, n: nat)
    requires key in Rounds(values, n)
    ensures var m := FirstRound(values, key, n);
            0 < m <= n && key in Rounds(values, m) && key !in Rounds(values, m - 1)
  {
    hide Rounds;
    RoundsMember(values, key, n);
    if key in Rounds(values, n - 1) { FirstRoundIs(values, key, n - 1); }
  }

  lemma FirstRoundLeast(values: Values, key: string, n: nat, m: nat)
    requires key in Rounds(values, n) && key in Rounds(values, m)
    ensures FirstRound(values, key, n) <= m
  {
    hide Rounds, FirstRound;
    FirstRoundIs(values, key, n);
    var f := FirstRound(values, key, n);
    if m < f { RoundsGrow(values, m, f - 1); }
  }

  /** Every key has an expansion exactly when all texts are closed, all references defined and none circular. */
  lemma ResolvableIffAcyclic(values: Values)
    requires TrimmedKeys(values)
    ensures Full(values).Keys == values.Keys <==> exists rank :: Ordered(values, rank)
  {
    hide Pieces, Substitute, Rounds, TrimmedKeys, FirstRound;
    if rank :| Ordered(values, rank) {
      forall k | k in values
        ensures k in Full(values)
      {
        RankedFound(values, rank, k, rank[k] + 1);
        FullContains(values, rank[k] + 1);
      }
    }
    if Full(values).Keys == values.Keys {
      var n := |values|;
      var rank := map k | k in Full(values) :: FirstRound(values, k, n);
      forall k | k in values
        ensures Pieces(values[k]).Some? && forall p <- Pieces(values[k]).value :: p.Reference? ==>
                  p.name in values && rank[p.name] < rank[k]
      {
        FirstRoundIs(values, k, n);
        RoundsMember(values, k, rank[k]);
        var before := Rounds(values, rank[k] - 1);
        SubstituteNeeds(Pieces(values[k]).value, before);
        forall p | p in Pieces(values[k]).value && p.Reference?
          ensures p.name in values && rank[p.name] < rank[k]
        {
          FirstRoundLeast(values, p.name, n, rank[k] - 1);
        }
      }
      assert Ordered(values, rank);
    }
  }

  // ---- literals with a dollar sign ----

  /** No literal part of a value has a dollar sign. */
  predicate NoDollars(values: Values) {
    forall k <- values :: Pieces(values[k]).Some? ==>
      forall p <- Pieces(values[k]).value :: p.Literal? ==> '$' !in p.text
  }

  lemma {:induction false} SubstituteNoDollar(pieces: seq<Piece>, texts: map<string, string>)
    requires forall p <- pieces :: p.Literal? ==> '$' !in p.text
    requires (forall k <- texts :: '$' !in texts[k]) && Substitute(pieces, texts).Some?
    ensures '$' !in Substitute(pieces, texts).value
  {
    if pieces != [] {
      assert pieces[0] in pieces && forall p <- pieces[1..] :: p in pieces;
      SubstituteNoDollar(pieces[1..], texts);
    }
  }

  lemma {:induction false} RoundsNoDollar(values: Values, n: nat)
    requires NoDollars(values)
    ensures forall k <- Rounds(values, n) :: '$' !in Rounds(values, n)[k]
  {
    hide Pieces, Substitute, Rounds;
    forall k | k in Rounds(values, n)
      ensures '$' !in Rounds(values, n)[k]
    {
      RoundsMember(values, k, n);
      RoundsNoDollar(values, n - 1);
      SubstituteNoDollar(Pieces(values[k]).value, Rounds(values, n - 1));
    }
  }

  /** Without dollar signs in the literals no expansion has a placeholder. */
  lemma NoDollarsClean(values: Values)
    requires NoDollars(values)
    ensures Clean(values) && ReferencedClean(values)
  {
    hide Rounds, NoDollars;
    RoundsNoDollar(values, |values|);
    forall k | k in Full(values)
      ensures SplitFirst(Full(values)[k]).Plain?
    {
      assert OpenAt(Full(values)[k]) == |Full(values)[k]|;
    }
  }
}
