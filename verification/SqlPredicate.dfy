/**
 The meaning of a WHERE predicate as far as AND and OR go, for any truth values of its atoms: AND binds tighter than OR,
 parentheses protect both, and the AND of BETWEEN belongs to its atom.
 */
module SqlPredicate {
  import opened SqlLexer
  import opened SqlScan
  import Text

  const AndWord := Lexeme(Word, "AND", true)
  const WhereWord := Lexeme(Word, "WHERE", true)

  /** The nesting depth after a sequence of lexemes. */
  function DepthOf(ts: seq<Lexeme>, depth: nat): (d: nat) {
    if ts == [] then depth else DepthOf(ts[1..], Step(depth, ts[0].kind))
  }

  /** Whether a BETWEEN at depth zero still waits for its AND after the lexeme `l`. */
  predicate Waits(l: Lexeme, depth: nat, between: bool) {
    if depth > 0 then between
    else if Is(l, "between") then true
    else if Is(l, "and") || Is(l, "or") then false
    else between
  }

  predicate WaitsAfter(ts: seq<Lexeme>, depth: nat, between: bool) {
    if ts == [] then between else WaitsAfter(ts[1..], Step(depth, ts[0].kind), Waits(ts[0], depth, between))
  }

  /** Parentheses are closed and no BETWEEN is left without its AND. */
  predicate Complete(ts: seq<Lexeme>) {
    DepthOf(ts, 0) == 0 && !WaitsAfter(ts, 0, false)
  }

  /** An OR of ANDs of atoms. */
  type Dnf = d: seq<seq<seq<Lexeme>>> | d != [] && forall c <- d :: c != [] witness [[[]]]

  /** The disjuncts of a predicate, each with its atoms, from a lexeme at the given depth on. */
  function Disjuncts(ts: seq<Lexeme>, depth: nat, between: bool): (d: Dnf) {
    if ts == [] then [[[]]]
    else
      var rest := Disjuncts(ts[1..], Step(depth, ts[0].kind), Waits(ts[0], depth, between));
      if depth == 0 && Is(ts[0], "or") then [[[]]] + rest
      else if depth == 0 && Is(ts[0], "and") && !between then [[[]] + rest[0]] + rest[1..]
      else [[[ts[0]] + rest[0][0]] + rest[0][1..]] + rest[1..]
  }

  /** The truth of a predicate, given the truth of its atoms. */
  ghost predicate Holds(ts: seq<Lexeme>, truth: seq<Lexeme> -> bool) {
    exists c <- Disjuncts(ts, 0, false) :: forall atom <- c :: truth(atom)
  }

  /** No OR at depth zero. */
  predicate NoTopLevelOr(ts: seq<Lexeme>) {
    |Disjuncts(ts, 0, false)| == 1
  }

  /** Two predicates joined by AND: the last disjunct of the first absorbs the first disjunct of the second. */
  function JoinAnd(a: Dnf, b: Dnf): (d: Dnf) {
    if |a| == 1 then [a[0] + b[0]] + b[1..] else [a[0]] + JoinAnd(a[1..], b)
  }

  lemma {:induction false} DisjunctsJoin(a: seq<Lexeme>, b: seq<Lexeme>, depth: nat, between: bool)
    requires DepthOf(a, depth) == 0 && !WaitsAfter(a, depth, between)
    ensures Disjuncts(a + [AndWord] + b, depth, between)
         == JoinAnd(Disjuncts(a, depth, between), Disjuncts(b, 0, false))
    decreases |a|
  {
    hide Waits, Is, JoinAnd;
    var all := a + [AndWord] + b;
    if a == [] {
      NothingBefore(all, b, between);
    } else {
      assert all[0] == a[0] && all[1..] == a[1..] + [AndWord] + b;
      DisjunctsJoin(a[1..], b, Step(depth, a[0].kind), Waits(a[0], depth, between));
      JoinPrepend(Disjuncts(a[1..], Step(depth, a[0].kind), Waits(a[0], depth, between)), Disjuncts(b, 0, false), a[0]);
    }
  }

  lemma NothingBefore(all: seq<Lexeme>, b: seq<Lexeme>, between: bool)
    requires all == [AndWord] + b && !between
    ensures Disjuncts(all, 0, between) == JoinAnd([[[]]], Disjuncts(b, 0, false))
    ensures Disjuncts([], 0, between) == [[[]]]
  {
    hide Waits, Is;
    assert all[1..] == b;
    AndEndsWait(between);
  }

  lemma AndEndsWait(between: bool)
    ensures !Waits(AndWord, 0, between) && Is(AndWord, "and") && !Is(AndWord, "or")
  {
    assert Is(AndWord, "and") by { assert LowerWord("AND", "and"); }
  }

  predicate LowerWord(s: string, t: string) {
    Text.Lower(s) == t && Text.Lower(t) == t
  }

  /** Putting a lexeme, an atom or a disjunct in front commutes with joining. */
  lemma JoinPrepend(a: Dnf, b: Dnf, t: Lexeme)
    ensures [[[]]] + JoinAnd(a, b) == JoinAnd([[[]]] + a, b)
    ensures [[[]] + JoinAnd(a, b)[0]] + JoinAnd(a, b)[1..] == JoinAnd([[[]] + a[0]] + a[1..], b)
    ensures [[[t] + JoinAnd(a, b)[0][0]] + JoinAnd(a, b)[0][1..]] + JoinAnd(a, b)[1..]
         == JoinAnd([[[t] + a[0][0]] + a[0][1..]] + a[1..], b)
  {
    assert ([[[]]] + a)[1..] == a;
    if |a| == 1 {
      assert JoinAnd(a, b)[1..] == b[1..];
      assert [[]] + (a[0] + b[0]) == ([[]] + a[0]) + b[0];
      assert (a[0] + b[0])[1..] == a[0][1..] + b[0];
      assert [[t] + a[0][0]] + (a[0][1..] + b[0]) == [[t] + a[0][0]] + a[0][1..] + b[0];
    } else {
      assert ([[[]] + a[0]] + a[1..])[1..] == a[1..];
      assert ([[[t] + a[0][0]] + a[0][1..]] + a[1..])[1..] == a[1..];
    }
  }

  /** Joining a predicate without OR on either side is conjunction. */
  lemma JoinMeansAnd(a: seq<Lexeme>, b: seq<Lexeme>, truth: seq<Lexeme> -> bool)
    requires Complete(a) && NoTopLevelOr(a) && NoTopLevelOr(b)
    ensures Holds(a + [AndWord] + b, truth) <==> Holds(a, truth) && Holds(b, truth)
    ensures NoTopLevelOr(a + [AndWord] + b)
  {
    DisjunctsJoin(a, b, 0, false);
    var da, db := Disjuncts(a, 0, false), Disjuncts(b, 0, false);
    var d := Disjuncts(a + [AndWord] + b, 0, false);
    assert d == [da[0] + db[0]];
    if Holds(a + [AndWord] + b, truth) {
      assert forall atom <- da[0] + db[0] :: truth(atom);
      assert forall atom <- da[0] :: atom in da[0] + db[0];
      assert forall atom <- db[0] :: atom in da[0] + db[0];
      assert da[0] in da && db[0] in db;
    }
    if Holds(a, truth) && Holds(b, truth) {
      assert d[0] in d;
    }
  }

  lemma {:induction false} DepthConcat(a: seq<Lexeme>, b: seq<Lexeme>, depth: nat)
    ensures DepthOf(a + b, depth) == DepthOf(b, DepthOf(a, depth))
  {
    if a == [] {
      assert a + b == b;
    } else {
      assert (a + b)[1..] == a[1..] + b;
      DepthConcat(a[1..], b, Step(depth, a[0].kind));
    }
  }

  lemma {:induction false} WaitsConcat(a: seq<Lexeme>, b: seq<Lexeme>, depth: nat, between: bool)
    ensures WaitsAfter(a + b, depth, between) == WaitsAfter(b, DepthOf(a, depth), WaitsAfter(a, depth, between))
  {
    hide Waits;
    if a == [] {
      assert a + b == b;
    } else {
      assert (a + b)[1..] == a[1..] + b;
      WaitsConcat(a[1..], b, Step(depth, a[0].kind), Waits(a[0], depth, between));
    }
  }

  /** Joining complete predicates gives a complete predicate. */
  lemma JoinComplete(a: seq<Lexeme>, b: seq<Lexeme>)
    requires Complete(a) && Complete(b)
    ensures Complete(a + [AndWord] + b)
  {
    hide Waits;
    assert a + [AndWord] + b == a + ([AndWord] + b);
    DepthConcat(a, [AndWord] + b, 0);
    WaitsConcat(a, [AndWord] + b, 0, false);
    assert ([AndWord] + b)[1..] == b;
    AndEndsWait(false);
  }

  // ---- what a top-level OR breaks ----

  function TotalLength(d: seq<seq<seq<Lexeme>>>): (n: nat)
    ensures forall c <- d, atom <- c :: |atom| <= n
  {
    if d == [] then 0 else LongestAtom(d[0]) + TotalLength(d[1..])
  }

  function LongestAtom(c: seq<seq<Lexeme>>): (n: nat)
    ensures forall atom <- c :: |atom| <= n
  {
    if c == [] then 0 else |c[0]| + LongestAtom(c[1..])
  }

  /** A predicate of one atom made of `n` opaque lexemes. */
  function Fresh(n: nat): (ts: seq<Lexeme>)
    ensures |ts| == n
  {
    if n == 0 then [] else [Lexeme(Literal, "''", true)] + Fresh(n - 1)
  }

  lemma {:induction false} FreshAtom(n: nat)
    ensures Disjuncts(Fresh(n), 0, false) == [[Fresh(n)]] && Complete(Fresh(n))
  {
    if n > 0 {
      FreshAtom(n - 1);
      var t := Lexeme(Literal, "''", true);
      assert Fresh(n)[0] == t && Fresh(n)[1..] == Fresh(n - 1);
      assert !Is(t, "or") && !Is(t, "and") && !Is(t, "between");
      assert [t] + Fresh(n - 1) == Fresh(n);
      assert [[t] + Fresh(n - 1)] + [] == [Fresh(n)];
      assert Disjuncts(Fresh(n), 0, false) == [[[t] + Fresh(n - 1)] + []] + [];
      assert !Waits(t, 0, false) && Step(0, t.kind) == 0;
    }
  }

  /** A disjunct with only true atoms makes the predicate true. */
  lemma HoldsBy(ts: seq<Lexeme>, k: nat, truth: seq<Lexeme> -> bool)
    requires k < |Disjuncts(ts, 0, false)| && forall atom <- Disjuncts(ts, 0, false)[k] :: truth(atom)
    ensures Holds(ts, truth)
  {
    assert Disjuncts(ts, 0, false)[k] in Disjuncts(ts, 0, false);
  }

  lemma FreshHolds(n: nat, truth: seq<Lexeme> -> bool)
    requires !truth(Fresh(n))
    ensures !Holds(Fresh(n), truth) && Complete(Fresh(n)) && NoTopLevelOr(Fresh(n))
  {
    FreshAtom(n);
    assert Disjuncts(Fresh(n), 0, false)[0][0] == Fresh(n);
  }

  /** With an OR on the left, some condition joined by AND does not restrict the result. */
  lemma OrBreaksJoin(a: seq<Lexeme>) returns (n: nat, truth: seq<Lexeme> -> bool)
    requires Complete(a) && !NoTopLevelOr(a)
    ensures Complete(Fresh(n)) && NoTopLevelOr(Fresh(n))
    ensures Holds(a + [AndWord] + Fresh(n), truth) && !Holds(Fresh(n), truth)
  {
    hide Holds;
    var da := Disjuncts(a, 0, false);
    n := TotalLength(da) + 1;
    truth := (atom: seq<Lexeme>) => |atom| != n;
    FreshHolds(n, truth);
    DisjunctsJoin(a, Fresh(n), 0, false);
    assert da[0] in da;
    HoldsBy(a + [AndWord] + Fresh(n), 0, truth);
  }

  /** With an OR on the right, the joined predicate can hold although the left side does not. */
  lemma OrBreaksJoined(b: seq<Lexeme>) returns (a: seq<Lexeme>, truth: seq<Lexeme> -> bool)
    requires Complete(b) && !NoTopLevelOr(b)
    ensures Complete(a) && NoTopLevelOr(a) && Holds(a + [AndWord] + b, truth) && !Holds(a, truth)
  {
    hide Holds;
    var db := Disjuncts(b, 0, false);
    var n := TotalLength(db) + 1;
    a, truth := Fresh(n), (atom: seq<Lexeme>) => |atom| != n;
    FreshHolds(n, truth);
    DisjunctsJoin(a, b, 0, false);
    assert db[1] in db;
    HoldsBy(a + [AndWord] + b, 1, truth);
  }

  ghost predicate JoinIsAnd(a: seq<Lexeme>, b: seq<Lexeme>, truth: seq<Lexeme> -> bool) {
    Holds(a + [AndWord] + b, truth) <==> Holds(a, truth) && Holds(b, truth)
  }

  /**
   A complete predicate can be joined with any further condition exactly when it has no OR at depth zero: otherwise the
   condition only restricts its last disjunct.
   */
  lemma JoinExact(a: seq<Lexeme>)
    requires Complete(a)
    ensures NoTopLevelOr(a) <==>
            forall b, truth :: Complete(b) && NoTopLevelOr(b) ==>
              JoinIsAnd(a, b, truth)
  {
    hide Holds, Complete, NoTopLevelOr;
    if NoTopLevelOr(a) {
      forall b, truth | Complete(b) && NoTopLevelOr(b)
        ensures JoinIsAnd(a, b, truth)
      {
        JoinMeansAnd(a, b, truth);
      }
    } else {
      var n, truth := OrBreaksJoin(a);
      assert !JoinIsAnd(a, Fresh(n), truth);
    }
  }

  /**
   A complete condition can be joined to any predicate exactly when it has no OR at depth zero: otherwise its later
   disjuncts hold whatever the predicate says.
   */
  lemma JoinedExact(b: seq<Lexeme>)
    requires Complete(b)
    ensures NoTopLevelOr(b) <==>
            forall a, truth :: Complete(a) && NoTopLevelOr(a) ==>
              JoinIsAnd(a, b, truth)
  {
    hide Holds, Complete, NoTopLevelOr;
    if NoTopLevelOr(b) {
      forall a, truth | Complete(a) && NoTopLevelOr(a)
        ensures JoinIsAnd(a, b, truth)
      {
        JoinMeansAnd(a, b, truth);
      }
    } else {
      var a, truth := OrBreaksJoined(b);
      assert !JoinIsAnd(a, b, truth);
    }
  }
}
