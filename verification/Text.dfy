/** The string operations of Go's standard library that the modelled code uses, on ASCII text. */
module Text {

  /** `strings.TrimSpace` removes these at both ends (its non-ASCII cases are not part of this model). */
  predicate IsSpace(c: char) {
    c == ' ' || c == '\t' || c == '\n' || c == '\r' || c == '\U{000B}' || c == '\U{000C}'
  }

  /** The cut set " \t\r\n" the SQL rewriters trim on the right. */
  predicate IsBlank(c: char) {
    c == ' ' || c == '\t' || c == '\n' || c == '\r'
  }

  /** The first index from one on whose character does not meet a condition. */
  function SkipLeft(s: string, i: nat, p: char -> bool): (n: nat)
    requires i <= |s|
    ensures i <= n <= |s| && (n < |s| ==> !p(s[n])) && forall k :: i <= k < n ==> p(s[k])
    decreases |s| - i
  {
    if i < |s| && p(s[i]) then SkipLeft(s, i + 1, p) else i
  }

  /** The index after the last character before one that does not meet a condition. */
  function SkipRight(s: string, j: nat, p: char -> bool): (n: nat)
    requires j <= |s|
    ensures n <= j && (0 < n ==> !p(s[n - 1])) && forall k :: n <= k < j ==> p(s[k])
  {
    if 0 < j && p(s[j - 1]) then SkipRight(s, j - 1, p) else j
  }

  function TrimLeft(s: string, p: char -> bool): (r: string)
    ensures |r| <= |s| && r == s[|s| - |r|..]
    ensures r != "" ==> !p(r[0])
    ensures forall i :: 0 <= i < |s| - |r| ==> p(s[i])
  {
    s[SkipLeft(s, 0, p)..]
  }

  function TrimRight(s: string, p: char -> bool): (r: string)
    ensures |r| <= |s| && r == s[..|r|]
    ensures r != "" ==> !p(r[|r| - 1])
    ensures forall i :: |r| <= i < |s| ==> p(s[i])
  {
    s[..SkipRight(s, |s|, p)]
  }

  function TrimSpace(s: string): (r: string) {
    TrimRight(TrimLeft(s, IsSpace), IsSpace)
  }

  lemma {:induction false} SkipRightSlice(s: string, j: nat, p: char -> bool)
    requires j < |s|
    ensures SkipRight(s[..|s| - 1], j, p) == SkipRight(s, j, p)
  {
    if j > 0 { SkipRightSlice(s, j - 1, p); }
  }

  /** Trimming goes one character at a time. */
  lemma TrimRightOne(s: string, p: char -> bool)
    ensures TrimRight(s, p) == if s != "" && p(s[|s| - 1]) then TrimRight(s[..|s| - 1], p) else s
  {
    if s != "" && p(s[|s| - 1]) {
      SkipRightSlice(s, |s| - 1, p);
    } else {
      assert s[..|s|] == s;
    }
  }

  /** A text without white space at its ends is its own trimmed text. */
  lemma TrimTight(s: string)
    requires s != "" && !IsSpace(s[0]) && !IsSpace(s[|s| - 1])
    ensures TrimSpace(s) == s
  {
  }

  lemma TrimTwice(s: string)
    ensures |TrimSpace(s)| <= |s| && TrimSpace(TrimSpace(s)) == TrimSpace(s)
  {
    var l := TrimLeft(s, IsSpace);
    var t := TrimRight(l, IsSpace);
    if t != "" { assert t[0] == l[0]; }
  }

  function LowerChar(c: char): char {
    if 'A' <= c <= 'Z' then c - 'A' + 'a' else c
  }

  function UpperChar(c: char): char {
    if 'a' <= c <= 'z' then c - 'a' + 'A' else c
  }

  function Lower(s: string): (r: string)
    ensures |r| == |s| && forall i :: 0 <= i < |s| ==> r[i] == LowerChar(s[i])
  {
    seq(|s|, i requires 0 <= i < |s| => LowerChar(s[i]))
  }

  function Upper(s: string): (r: string)
    ensures |r| == |s| && forall i :: 0 <= i < |s| ==> r[i] == UpperChar(s[i])
  {
    seq(|s|, i requires 0 <= i < |s| => UpperChar(s[i]))
  }

  /** `strings.ReplaceAll` of one character by another. */
  function ReplaceAll(s: string, a: char, b: char): (r: string)
    ensures |r| == |s| && forall i :: 0 <= i < |s| ==> r[i] == if s[i] == a then b else s[i]
  {
    seq(|s|, i requires 0 <= i < |s| => if s[i] == a then b else s[i])
  }

  /** `strings.EqualFold` on ASCII text. */
  predicate EqualFold(s: string, t: string) {
    Lower(s) == Lower(t)
  }

  /** A word in small letters, each of them written as it is or as its capital. */
  predicate Spells(s: string, word: string) {
    && |s| == |word|
    && forall i :: 0 <= i < |word| ==>
         s[i] == word[i] || ('a' <= word[i] <= 'z' && s[i] as int == word[i] as int - 32)
  }

  /** What the comparisons that ignore case find equal to a word in small letters. */
  lemma SpellsFolds(s: string, word: string)
    requires forall i :: 0 <= i < |word| ==> !('A' <= word[i] <= 'Z')
    ensures Spells(s, word) <==> EqualFold(s, word)
    ensures Spells(s, word) <==> Lower(s) == word
  {
    assert Lower(word) == word;
    if Spells(s, word) {
      assert forall i :: 0 <= i < |word| ==> Lower(s)[i] == word[i];
    }
    if Lower(s) == word {
      assert forall i :: 0 <= i < |word| ==> LowerChar(s[i]) == word[i];
    }
  }

  /** `strings.Join`. */
  function Join(parts: seq<string>, sep: string): (r: string) {
    if parts == [] then ""
    else if |parts| == 1 then parts[0]
    else parts[0] + sep + Join(parts[1..], sep)
  }
}
