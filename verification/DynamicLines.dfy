/** What normalising a fragment does to its lines: they are trimmed, and a space takes the place of each line break. */
module DynamicLines {
  import opened DynamicText
  import Text

  lemma {:induction false} SkipIs(s: string, i: nat, n: nat)
    requires i <= n <= |s| && (n < |s| ==> !Text.IsSpace(s[n])) && forall k :: i <= k < n ==> Text.IsSpace(s[k])
    ensures Text.SkipLeft(s, i, Text.IsSpace) == n
    decreases n - i
  {
    if i < n { SkipIs(s, i + 1, n); }
  }

  lemma TrimLeftOne(s: string)
    requires s != "" && Text.IsSpace(s[0])
    ensures Text.TrimSpace(s) == Text.TrimSpace(s[1..])
  {
    var n := Text.SkipLeft(s, 0, Text.IsSpace);
    hide Text.SkipLeft;
    assert n > 0;
    SkipIs(s[1..], 0, n - 1);
    assert s[1..][n - 1..] == s[n..];
  }

  lemma TrimLastOne(s: string)
    requires s != "" && Text.IsSpace(s[|s| - 1])
    ensures Text.TrimSpace(s) == Text.TrimSpace(s[..|s| - 1])
  {
    hide Text.SkipLeft, Text.SkipRight;
    var n, t := Text.SkipLeft(s, 0, Text.IsSpace), s[..|s| - 1];
    if n == |s| {
      SkipIs(t, 0, |t|);
      assert s[n..] == t[|t|..];
    } else {
      SkipIs(t, 0, n);
      var a := s[n..];
      Text.TrimRightOne(a, Text.IsSpace);
      assert a[..|a| - 1] == t[n..];
    }
  }

  lemma LinesStep(s: string)
    ensures var i := NewlineAt(s); TextLines(s) == if i == |s| then [s] else [s[..i]] + TextLines(s[i + 1..])
  {
    hide NewlineAt;
  }

  lemma KeptOne(line: string, rest: seq<string>)
    ensures Kept([line] + rest) == (if Text.TrimSpace(line) == "" then [] else [Text.TrimSpace(line)]) + Kept(rest)
  {
    assert ([line] + rest)[1..] == rest;
  }

  lemma NothingTrimmed()
    ensures Text.TrimSpace("") == ""
  {
  }

  /** White space at the beginning of a text changes none of the lines that are kept. */
  lemma KeptLeft(s: string)
    requires s != "" && Text.IsSpace(s[0])
    ensures Kept(TextLines(s)) == Kept(TextLines(s[1..]))
  {
    hide Kept, Text.TrimSpace, TextLines;
    LinesStep(s);
    NothingTrimmed();
    if s[0] == '\n' {
      assert NewlineAt(s) == 0;
      KeptOne("", TextLines(s[1..]));
      assert s[..0] == "";
    } else {
      var i := NewlineAt(s);
      LinesStep(s[1..]);
      assert NewlineAt(s[1..]) == i - 1;
      var line := s[..i];
      TrimLeftOne(line);
      assert line[1..] == s[1..][..i - 1];
      if i == |s| {
        assert s[..i] == s && s[1..][..i - 1] == s[1..] && [s] == [s] + [] && [s[1..]] == [s[1..]] + [];
        KeptOne(s, []);
        KeptOne(s[1..], []);
      } else {
        assert s[1..][i..] == s[i + 1..];
        KeptOne(line, TextLines(s[i + 1..]));
        KeptOne(line[1..], TextLines(s[i + 1..]));
      }
    }
  }

  lemma {:induction false} NewlineIs(s: string, i: nat)
    requires i <= |s| && (i < |s| ==> s[i] == '\n') && forall k :: 0 <= k < i ==> s[k] != '\n'
    ensures NewlineAt(s) == i
  {
    if i > 0 { NewlineIs(s[1..], i - 1); }
  }

  /** Nor does white space at its end. */
  lemma {:induction false} KeptRight(s: string)
    requires s != "" && Text.IsSpace(s[|s| - 1])
    ensures Kept(TextLines(s)) == Kept(TextLines(s[..|s| - 1]))
    decreases |s|
  {
    hide Kept, Text.TrimSpace, TextLines;
    LinesStep(s);
    NothingTrimmed();
    var i, t := NewlineAt(s), s[..|s| - 1];
    LinesStep(t);
    if i == |s| {
      NewlineIs(t, |t|);
      TrimLastOne(s);
      assert [s] == [s] + [] && [t] == [t] + [];
      KeptOne(s, []);
      KeptOne(t, []);
    } else if i == |s| - 1 {
      NewlineIs(t, |t|);
      assert s[i + 1..] == "" && s[..i] == t;
      LinesStep("");
      assert [""] == [""] + [] && [t] == [t] + [];
      KeptOne("", []);
      KeptOne(t, [""]);
      KeptOne(t, []);
    } else {
      NewlineIs(t, i);
      KeptRight(s[i + 1..]);
      assert s[i + 1..][..|s| - i - 2] == t[i + 1..] && s[..i] == t[..i];
      KeptOne(s[..i], TextLines(s[i + 1..]));
      KeptOne(s[..i], TextLines(t[i + 1..]));
    }
  }

  /** A text is trimmed one character at a time, at either end. */
  lemma {:induction false} KeptTrimmed(s: string)
    ensures Kept(TextLines(Text.TrimSpace(s))) == Kept(TextLines(s))
    decreases |s|
  {
    hide Kept, TextLines, Text.TrimSpace;
    if s == "" {
      NothingTrimmed();
    } else if Text.IsSpace(s[0]) {
      TrimLeftOne(s);
      KeptLeft(s);
      KeptTrimmed(s[1..]);
    } else if Text.IsSpace(s[|s| - 1]) {
      TrimLastOne(s);
      KeptRight(s);
      KeptTrimmed(s[..|s| - 1]);
    } else {
      Text.TrimTight(s);
    }
  }

  /** Texts without line breaks. */
  predicate SingleLines(lines: seq<string>) {
    forall l <- lines :: '\n' !in l
  }

  lemma {:induction false} LinesBack(lines: seq<string>)
    requires lines != [] && SingleLines(lines)
    ensures TextLines(Text.Join(lines, "\n")) == lines
  {
    var first, s := lines[0], Text.Join(lines, "\n");
    assert first in lines && lines == [first] + lines[1..];
    hide TextLines;
    LinesStep(s);
    if |lines| == 1 {
      NewlineIs(s, |s|);
    } else {
      assert s[..|first|] == first && s[|first| + 1..] == Text.Join(lines[1..], "\n");
      NewlineIs(s, |first|);
      LinesBack(lines[1..]);
    }
  }

  lemma BreakBetween(lines: seq<string>)
    requires |lines| > 1
    ensures '\n' in Text.Join(lines, "\n")
  {
    var n := |lines[0]|;
    assert Text.Join(lines, "\n")[n] == '\n';
  }

  lemma KeptLines(lines: seq<string>)
    requires lines != [] && SingleLines(lines)
    ensures NormalText(Text.Join(lines, "\n")) == Text.Join(Kept(lines), " ")
  {
    hide TextLines, Text.TrimSpace, Kept;
    var raw := Text.Join(lines, "\n");
    LinesBack(lines);
    KeptTrimmed(raw);
    if |lines| > 1 {
      BreakBetween(lines);
    } else {
      assert '\n' !in raw by { assert raw == lines[0] && lines[0] in lines; }
      assert lines == [raw] + [];
      KeptOne(raw, []);
      OneKept(Text.TrimSpace(raw));
    }
  }

  lemma OneKept(line: string)
    ensures Kept([]) == [] && line == Text.Join((if line == "" then [] else [line]) + [], " ")
  {
  }

  lemma {:induction false} AllKept(lines: seq<string>, trimmed: seq<string>)
    requires |trimmed| == |lines|
    requires forall i :: 0 <= i < |lines| ==> trimmed[i] == Text.TrimSpace(lines[i]) != ""
    ensures Kept(lines) == trimmed
  {
    hide Text.TrimSpace;
    if lines != [] {
      AllKept(lines[1..], trimmed[1..]);
      assert trimmed == [trimmed[0]] + trimmed[1..];
    }
  }

  lemma {:induction false} KeptConcat(a: seq<string>, b: seq<string>)
    ensures Kept(a + b) == Kept(a) + Kept(b)
  {
    hide Text.TrimSpace;
    if a == [] {
      assert a + b == b;
    } else {
      assert (a + b)[1..] == a[1..] + b;
      KeptConcat(a[1..], b);
    }
  }

  /** Lines that are not blank are trimmed, and one space takes the place of each line break. */
  lemma LinesJoined(lines: seq<string>, trimmed: seq<string>)
    requires lines != [] && SingleLines(lines) && |trimmed| == |lines|
    requires forall i :: 0 <= i < |lines| ==> trimmed[i] == Text.TrimSpace(lines[i]) != ""
    ensures NormalText(Text.Join(lines, "\n")) == Text.Join(trimmed, " ")
  {
    hide NormalText, Text.TrimSpace, Text.Join, SingleLines;
    KeptLines(lines);
    AllKept(lines, trimmed);
  }

  /** Blank lines, wherever they are, leave no trace. */
  lemma BlankLineDropped(before: seq<string>, blank: string, after: seq<string>)
    requires before + after != [] && SingleLines(before + [blank] + after) && Text.TrimSpace(blank) == ""
    ensures NormalText(Text.Join(before + [blank] + after, "\n")) == NormalText(Text.Join(before + after, "\n"))
  {
    hide NormalText, Text.TrimSpace, Text.Join;
    assert forall l <- before + after :: l in before + [blank] + after;
    KeptLines(before + [blank] + after);
    KeptLines(before + after);
    KeptConcat(before + [blank], after);
    KeptConcat(before, [blank]);
    KeptConcat(before, after);
    hide Kept;
    KeptOne(blank, []);
    assert [blank] == [blank] + [];
    NoneKept();
    assert Kept([blank]) == [] && Kept(before) + [] == Kept(before);
  }

  lemma NoneKept()
    ensures Kept([]) == []
  {
  }
}
