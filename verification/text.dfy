/** The Python `str` operations the scripts rely on, over `string` (`seq<char>`):
    `replace`, `strip`, `split` on one character, `join`, `readlines`,
    `isdigit`, `in`, `startswith` and `endswith`. */
module Text {

  /** `pat` occurs in `s` starting at index `i`. */
  predicate OccursAt(s: string, pat: string, i: nat) {
    i + |pat| <= |s| && s[i..i + |pat|] == pat
  }

  /** Python's `pat in s`. */
  predicate Contains(s: string, pat: string) {
    exists i :: 0 <= i <= |s| && OccursAt(s, pat, i)
  }

  /** Python's `s.endswith(suffix)`. */
  predicate EndsWith(s: string, suffix: string) {
    |suffix| <= |s| && s[|s| - |suffix|..] == suffix
  }

  /** Python's `"".join(pieces)`. */
  function Concat(pieces: seq<string>): string {
    if |pieces| == 0 then [] else pieces[0] + Concat(pieces[1..])
  }

  /** Python's `sep.join(parts)`. */
  function JoinWith(parts: seq<string>, sep: string): string {
    if |parts| == 0 then []
    else if |parts| == 1 then parts[0]
    else parts[0] + sep + JoinWith(parts[1..], sep)
  }

  lemma {:induction false} ConcatAppend(a: seq<string>, b: seq<string>)
    ensures Concat(a + b) == Concat(a) + Concat(b)
  {
    if |a| == 0 {
      assert a + b == b;
    } else {
      assert (a + b)[1..] == a[1..] + b;
      ConcatAppend(a[1..], b);
    }
  }

  // ---------------------------------------------------------------------
  // str.replace

  /** Python's `s.replace(pat, rep)`: every non-overlapping occurrence of `pat`,
      found scanning left to right, is replaced by `rep`. An empty `pat`
      matches before every character and at the end. */
  function Replace(s: string, pat: string, rep: string): string
    decreases |s|
  {
    if |pat| == 0 then
      if |s| == 0 then rep else rep + [s[0]] + Replace(s[1..], pat, rep)
    else if |s| == 0 then s
    else if pat <= s then rep + Replace(s[|pat|..], pat, rep)
    else [s[0]] + Replace(s[1..], pat, rep)
  }

  lemma PrefixOccurs(s: string, pat: string)
    ensures pat <= s <==> OccursAt(s, pat, 0)
  {
    if |pat| <= |s| {
      assert s[0..|pat|] == s[..|pat|];
    }
  }

  lemma OccursAtTail(s: string, pat: string, i: nat)
    requires |s| > 0
    ensures OccursAt(s[1..], pat, i) <==> OccursAt(s, pat, i + 1)
  {
    if i + 1 + |pat| <= |s| {
      assert s[1..][i..i + |pat|] == s[i + 1..i + 1 + |pat|];
    }
  }

  /** With a pattern that cannot overlap itself, `x + pat` starts with the
      pattern exactly when `x` does. */
  lemma PatternPrefix(x: string, pat: string)
    requires |x| > 0 && |pat| > 0 && pat[0] !in pat[1..]
    ensures pat <= x + pat <==> pat <= x
  {
    var s := x + pat;
    if |x| < |pat| {
      assert s[|x|] == pat[0];
      assert pat[|x|] == pat[1..][|x| - 1];
    } else {
      assert s[..|pat|] == x[..|pat|];
    }
  }

  /** Replacing a pattern that does not occur changes nothing. */
  lemma {:induction false} ReplaceAbsent(s: string, pat: string, rep: string)
    requires |pat| > 0
    requires !Contains(s, pat)
    ensures Replace(s, pat, rep) == s
    decreases |s|
  {
    if |s| > 0 {
      PrefixOccurs(s, pat);
      forall i | 0 <= i <= |s[1..]|
        ensures !OccursAt(s[1..], pat, i)
      {
        OccursAtTail(s, pat, i);
      }
      ReplaceAbsent(s[1..], pat, rep);
    }
  }

  /** Replacing a pattern by itself changes nothing, the empty pattern included. */
  lemma {:induction false} ReplaceSelf(s: string, pat: string)
    ensures Replace(s, pat, pat) == s
    decreases |s|
  {
    if |s| > 0 {
      var r := Replace(s, pat, pat);
      if |pat| == 0 {
        ReplaceEmptyStep(s, pat);
        ReplaceSelf(s[1..], pat);
        assert r == [s[0]] + s[1..];
      } else if pat <= s {
        ReplaceMatchStep(s, pat, pat);
        ReplaceSelf(s[|pat|..], pat);
        assert r == s[..|pat|] + s[|pat|..];
      } else {
        ReplaceNoMatchStep(s, pat, pat);
        ReplaceSelf(s[1..], pat);
        assert r == [s[0]] + s[1..];
      }
    }
  }

  /** The empty pattern puts the replacement before every character. */
  lemma ReplaceEmptyStep(s: string, rep: string)
    requires |s| > 0
    ensures Replace(s, [], rep) == rep + [s[0]] + Replace(s[1..], [], rep)
  {
  }

  /** Occurrences that start inside `a` are the only ones that could change `a`:
      when there are none, the replacement leaves `a` alone. */
  lemma ReplaceSkipPrefix(a: string, t: string, pat: string, rep: string)
    requires |pat| > 0
    requires forall i :: 0 <= i < |a| ==> !OccursAt(a + t, pat, i)
    ensures Replace(a + t, pat, rep) == a + Replace(t, pat, rep)
  {
    var s := a + t;
    ReplaceKeepsPrefix(s, |a|, pat, rep);
    assert s[..|a|] == a && s[|a|..] == t;
  }

  lemma SliceFacts(s: string, n: nat)
    requires 0 < n <= |s|
    ensures s[1..][n - 1..] == s[n..]
    ensures [s[0]] + s[1..][..n - 1] == s[..n]
  {
  }

  lemma {:induction false} ReplaceKeepsPrefix(s: string, n: nat, pat: string, rep: string)
    requires |pat| > 0 && n <= |s|
    requires forall i :: 0 <= i < n ==> !OccursAt(s, pat, i)
    ensures Replace(s, pat, rep) == s[..n] + Replace(s[n..], pat, rep)
    decreases n
  {
    if n > 0 {
      var t := s[1..];
      assert !(pat <= s) by { PrefixOccurs(s, pat); }
      assert forall i :: 0 <= i < n - 1 ==> !OccursAt(t, pat, i) by {
        forall i | 0 <= i < n - 1
          ensures !OccursAt(t, pat, i)
        {
          OccursAtTail(s, pat, i);
        }
      }
      ReplaceKeepsPrefix(t, n - 1, pat, rep);
      ReplaceNoMatchStep(s, pat, rep);
      SliceFacts(s, n);
      ConsAssoc(s[0], t[..n - 1], Replace(s[n..], pat, rep));
    } else {
      assert s[..0] == [] && s[0..] == s;
    }
  }

  lemma NotInAppend(c: char, a: string, b: string)
    requires c !in a && c !in b
    ensures c !in a + b
  {
  }

  lemma AppendAssoc(a: string, b: string, c: string)
    ensures a + b + c == a + (b + c)
  {
  }

  lemma ConsAssoc(c: char, a: string, b: string)
    ensures [c] + (a + b) == ([c] + a) + b
  {
  }

  /** Where the pattern starts, it is replaced and scanning resumes after it. */
  lemma ReplaceMatchStep(s: string, pat: string, rep: string)
    requires |pat| > 0 && pat <= s
    ensures Replace(s, pat, rep) == rep + Replace(s[|pat|..], pat, rep)
  {
  }

  /** Where the pattern does not start, the first character is kept. */
  lemma ReplaceNoMatchStep(s: string, pat: string, rep: string)
    requires |pat| > 0 && |s| > 0 && !(pat <= s)
    ensures Replace(s, pat, rep) == [s[0]] + Replace(s[1..], pat, rep)
  {
  }

  /** A pattern whose first character does not recur in it cannot overlap itself,
      so an occurrence appended at the end is replaced on its own. */
  lemma {:induction false} ReplaceAppendPattern(x: string, pat: string, rep: string)
    requires |pat| > 0 && pat[0] !in pat[1..]
    ensures Replace(x + pat, pat, rep) == Replace(x, pat, rep) + rep
    decreases |x|
  {
    var s := x + pat;
    if |x| == 0 {
      assert s == pat;
      assert pat[|pat|..] == [];
    } else {
      PatternPrefix(x, pat);
      assert s[0] == x[0];
      if pat <= x {
        assert s[|pat|..] == x[|pat|..] + pat;
        ReplaceAppendPattern(x[|pat|..], pat, rep);
      } else {
        assert s[1..] == x[1..] + pat;
        ReplaceAppendPattern(x[1..], pat, rep);
      }
    }
  }

  /** An occurrence at the very start is replaced first. */
  lemma ReplaceAtStart(pat: string, x: string, rep: string)
    requires |pat| > 0
    ensures Replace(pat + x, pat, rep) == rep + Replace(x, pat, rep)
  {
    assert pat <= pat + x;
    assert (pat + x)[|pat|..] == x;
  }

  /** A character that cannot start the pattern is kept as it is. */
  lemma ReplaceSkipChar(c: char, x: string, pat: string, rep: string)
    requires |pat| > 0 && c != pat[0]
    ensures Replace([c] + x, pat, rep) == [c] + Replace(x, pat, rep)
  {
    assert ([c] + x)[1..] == x;
  }


  /** Character-by-character substitution of `c` by `rep`. */
  function SubstChar(s: string, c: char, rep: string): string {
    if |s| == 0 then [] else (if s[0] == c then rep else [s[0]]) + SubstChar(s[1..], c, rep)
  }

  lemma {:induction false} SubstCharAppend(a: string, b: string, c: char, rep: string)
    ensures SubstChar(a + b, c, rep) == SubstChar(a, c, rep) + SubstChar(b, c, rep)
    decreases |a|
  {
    if |a| == 0 {
      assert a + b == b;
    } else {
      assert (a + b)[1..] == a[1..] + b;
      SubstCharAppend(a[1..], b, c, rep);
    }
  }

  /** Replacing a one-character pattern is substituting that character. */
  lemma {:induction false} ReplaceCharIsSubst(s: string, c: char, rep: string)
    ensures Replace(s, [c], rep) == SubstChar(s, c, rep)
    decreases |s|
  {
    if |s| > 0 {
      assert [c] <= s <==> s[0] == c;
      ReplaceCharIsSubst(s[1..], c, rep);
    }
  }

  // ---------------------------------------------------------------------
  // str.strip

  /** Python's `str.isspace` for one character: the ASCII controls tab to
      carriage return and 0x1c-0x1f, the space, and the Unicode separators. */
  predicate IsSpace(c: char) {
    || c == ' '
    || ('\t' <= c <= '\r')
    || ('\U{1c}' <= c <= '\U{1f}')
    || c == '\U{85}' || c == '\U{a0}' || c == '\U{1680}'
    || ('\U{2000}' <= c <= '\U{200a}')
    || c == '\U{2028}' || c == '\U{2029}' || c == '\U{202f}' || c == '\U{205f}' || c == '\U{3000}'
  }

  predicate AllSpace(s: string) {
    forall i :: 0 <= i < |s| ==> IsSpace(s[i])
  }

  /** Length of the longest all-whitespace prefix. */
  function LeadingSpaces(s: string): (n: nat)
    ensures n <= |s|
    ensures AllSpace(s[..n])
    ensures n < |s| ==> !IsSpace(s[n])
  {
    if |s| == 0 || !IsSpace(s[0]) then 0 else 1 + LeadingSpaces(s[1..])
  }

  /** Length of the longest all-whitespace suffix. */
  function TrailingSpaces(s: string): (n: nat)
    ensures n <= |s|
    ensures AllSpace(s[|s| - n..])
    ensures n < |s| ==> !IsSpace(s[|s| - 1 - n])
  {
    if |s| == 0 || !IsSpace(s[|s| - 1]) then 0
    else
      var m := TrailingSpaces(s[..|s| - 1]);
      AllSpaceExtend(s, m);
      1 + m
  }

  lemma AllSpaceExtend(s: string, m: nat)
    requires m < |s| && IsSpace(s[|s| - 1])
    requires AllSpace(s[..|s| - 1][|s| - 1 - m..])
    ensures AllSpace(s[|s| - (m + 1)..])
  {
    var t := s[..|s| - 1][|s| - 1 - m..];
    assert forall i :: 0 <= i < m ==> s[|s| - (m + 1)..][i] == t[i];
  }

  /** Python's `s.strip()`. */
  function Strip(s: string): string {
    var core := s[LeadingSpaces(s)..];
    core[..|core| - TrailingSpaces(core)]
  }

  /** The whitespace `strip` removes in front ... */
  function Leading(s: string): string {
    s[..LeadingSpaces(s)]
  }

  /** ... and behind. */
  function Trailing(s: string): string {
    var core := s[LeadingSpaces(s)..];
    core[|core| - TrailingSpaces(core)..]
  }

  lemma SliceThree(s: string, n: nat, k: nat)
    requires n <= |s| && k <= |s| - n
    ensures s == s[..n] + s[n..][..k] + s[n..][k..]
  {
    assert s == s[..n] + s[n..];
    assert s[n..] == s[n..][..k] + s[n..][k..];
  }

  /** `strip` cuts `s` into whitespace, a core that neither starts nor ends
      with whitespace, and whitespace. */
  lemma StripParts(s: string)
    ensures s == Leading(s) + Strip(s) + Trailing(s)
    ensures AllSpace(Leading(s)) && AllSpace(Trailing(s))
    ensures Strip(s) != [] ==> !IsSpace(Strip(s)[0]) && !IsSpace(Strip(s)[|Strip(s)| - 1])
  {
    var n := LeadingSpaces(s);
    var core := s[n..];
    SliceThree(s, n, |core| - TrailingSpaces(core));
    StripEnds(s);
  }

  lemma StripEnds(s: string)
    ensures Strip(s) != [] ==> !IsSpace(Strip(s)[0]) && !IsSpace(Strip(s)[|Strip(s)| - 1])
  {
    var n := LeadingSpaces(s);
    var core := s[n..];
    var m := TrailingSpaces(core);
    var mid := core[..|core| - m];
    if mid != [] {
      assert mid[0] == s[n];
      assert mid[|mid| - 1] == core[|core| - 1 - m];
    }
  }

  /** Replacing the stripped text inside its own line keeps the surrounding
      whitespace: the core occurs exactly once. */
  lemma ReplaceStripped(s: string, rep: string)
    requires Strip(s) != []
    ensures Replace(s, Strip(s), rep) == Leading(s) + rep + Trailing(s)
  {
    StripParts(s);
    ReplaceAmidSpaces(Leading(s), Strip(s), Trailing(s), rep);
  }

  lemma ReplaceAmidSpaces(a: string, p: string, b: string, rep: string)
    requires AllSpace(a) && AllSpace(b)
    requires p != [] && !IsSpace(p[0])
    ensures Replace(a + p + b, p, rep) == a + rep + b
  {
    NoOccurrenceInSpace(a, p + b, p);
    ReplaceSkipPrefix(a, p + b, p, rep);
    ReplaceAtStart(p, b, rep);
    NoOccurrenceInSpace(b, [], p);
    assert b + [] == b;
    ReplaceAbsent(b, p, rep);
    assert a + p + b == a + (p + b);
  }

  /** A pattern starting with a non-space character cannot start inside a
      run of spaces. */
  lemma NoOccurrenceInSpace(a: string, t: string, p: string)
    requires AllSpace(a)
    requires p != [] && !IsSpace(p[0])
    ensures forall i :: 0 <= i < |a| ==> !OccursAt(a + t, p, i)
    ensures t == [] ==> !Contains(a, p)
  {
    forall i | 0 <= i < |a|
      ensures !OccursAt(a + t, p, i)
    {
      assert (a + t)[i] == a[i];
      if i + |p| <= |a + t| {
        assert (a + t)[i..i + |p|][0] != p[0];
      }
    }
    if t == [] {
      assert a + t == a;
      assert forall i :: 0 <= i <= |a| ==> !OccursAt(a, p, i);
    }
  }

  // ---------------------------------------------------------------------
  // str.split on one character, and readlines

  /** Python's `s.split(sep)` for a one-character separator: the pieces
      between separators, always at least one. */
  function Split(s: string, sep: char): (parts: seq<string>)
    ensures |parts| >= 1
    ensures forall i :: 0 <= i < |parts| ==> sep !in parts[i]
    decreases |s|
  {
    if |s| == 0 then [[]]
    else
      var rest := Split(s[1..], sep);
      if s[0] == sep then [[]] + rest
      else [[s[0]] + rest[0]] + rest[1..]
  }

  /** Joining the pieces with the separator gives the text back. */
  lemma {:induction false} JoinSplit(s: string, sep: char)
    ensures JoinWith(Split(s, sep), [sep]) == s
    decreases |s|
  {
    if |s| > 0 {
      var rest := Split(s[1..], sep);
      JoinSplit(s[1..], sep);
      if s[0] == sep {
        assert JoinWith(Split(s, sep), [sep]) == [] + [sep] + JoinWith(rest, [sep]);
      } else if |rest| == 1 {
        assert Split(s, sep) == [[s[0]] + rest[0]];
      } else {
        var parts := Split(s, sep);
        assert parts[1..] == rest[1..];
        assert JoinWith(rest, [sep]) == rest[0] + [sep] + JoinWith(rest[1..], [sep]);
      }
    }
  }

  lemma {:induction false} SplitNoSeparator(a: string, sep: char)
    requires sep !in a
    ensures Split(a, sep) == [a]
    decreases |a|
  {
    if |a| > 0 {
      SplitNoSeparator(a[1..], sep);
      assert a == [a[0]] + a[1..];
    }
  }

  lemma {:induction false} SplitSeparated(a: string, b: string, sep: char)
    requires sep !in a
    ensures Split(a + [sep] + b, sep) == [a] + Split(b, sep)
    decreases |a|
  {
    if |a| == 0 {
      assert a + [sep] + b == [sep] + b;
      assert ([sep] + b)[1..] == b;
    } else {
      assert (a + [sep] + b)[1..] == a[1..] + [sep] + b;
      SplitSeparated(a[1..], b, sep);
      assert [a[0]] + a[1..] == a;
    }
  }

  /** Splitting a join recovers the parts when no part holds the separator. */
  lemma {:induction false} SplitJoin(parts: seq<string>, sep: char)
    requires |parts| >= 1
    requires forall i :: 0 <= i < |parts| ==> sep !in parts[i]
    ensures Split(JoinWith(parts, [sep]), sep) == parts
    decreases |parts|
  {
    if |parts| == 1 {
      SplitNoSeparator(parts[0], sep);
    } else {
      SplitJoin(parts[1..], sep);
      SplitSeparated(parts[0], JoinWith(parts[1..], [sep]), sep);
      assert parts == [parts[0]] + parts[1..];
    }
  }

  /** Python's `f.readlines()` on text already read: each line keeps its
      terminating newline; only the last may lack one. */
  function Lines(s: string): seq<string>
    decreases |s|
  {
    if |s| == 0 then []
    else
      var rest := Lines(s[1..]);
      if s[0] == '\n' || rest == [] then [[s[0]]] + rest
      else [[s[0]] + rest[0]] + rest[1..]
  }

  /** None of the lines is empty; every line but the last ends in a newline,
      and no line has one anywhere else. */
  predicate ShapedLines(lines: seq<string>) {
    && (forall i :: 0 <= i < |lines| ==> lines[i] != [])
    && (forall i :: 0 <= i < |lines| - 1 ==> lines[i][|lines[i]| - 1] == '\n')
    && (forall i, j :: 0 <= i < |lines| && 0 <= j < |lines[i]| - 1 ==> lines[i][j] != '\n')
  }

  lemma ShapedCons(c: char, rest: seq<string>)
    requires ShapedLines(rest)
    requires c == '\n' || rest == []
    ensures ShapedLines([[c]] + rest)
  {
    var lines := [[c]] + rest;
    assert forall i :: 1 <= i < |lines| ==> lines[i] == rest[i - 1];
  }

  lemma ShapedMerge(c: char, rest: seq<string>)
    requires ShapedLines(rest)
    requires c != '\n' && rest != []
    ensures ShapedLines([[c] + rest[0]] + rest[1..])
  {
    var lines := [[c] + rest[0]] + rest[1..];
    assert forall i :: 1 <= i < |lines| ==> lines[i] == rest[i];
    assert forall j :: 1 <= j < |lines[0]| ==> lines[0][j] == rest[0][j - 1];
  }

  /** The lines put back together are the text. */
  lemma {:induction false} LinesConcat(s: string)
    ensures Concat(Lines(s)) == s
    decreases |s|
  {
    if |s| > 0 {
      var rest := Lines(s[1..]);
      LinesConcat(s[1..]);
      if s[0] == '\n' || rest == [] {
        assert Lines(s) == [[s[0]]] + rest;
      } else {
        assert Concat(rest) == rest[0] + Concat(rest[1..]);
        assert Lines(s) == [[s[0]] + rest[0]] + rest[1..];
      }
      assert s == [s[0]] + s[1..];
    }
  }

  /** Every list of lines read from a text has the shape of `readlines`. */
  lemma {:induction false} LinesShaped(s: string)
    ensures ShapedLines(Lines(s))
    decreases |s|
  {
    if |s| > 0 {
      var rest := Lines(s[1..]);
      LinesShaped(s[1..]);
      if s[0] == '\n' || rest == [] {
        ShapedCons(s[0], rest);
      } else {
        ShapedMerge(s[0], rest);
      }
    }
  }

  /** A line ending in a newline is read as one line, the rest after it. */
  lemma {:induction false} LinesSeparated(a: string, rest: string)
    requires '\n' !in a
    ensures Lines(a + "\n" + rest) == [a + "\n"] + Lines(rest)
    decreases |a|
  {
    var s := a + "\n" + rest;
    if |a| == 0 {
      assert s[0] == '\n' && s[1..] == rest;
      assert a + "\n" == [s[0]];
    } else {
      LinesSeparated(a[1..], rest);
      assert s[1..] == a[1..] + "\n" + rest;
      assert [s[0]] + (a[1..] + "\n") == a + "\n";
    }
  }

  /** Stripping text whose ends are not whitespace, followed by whitespace,
      gives the text back. */
  lemma StripSpaceTail(x: string, t: string)
    requires x != [] && !IsSpace(x[0]) && !IsSpace(x[|x| - 1])
    requires AllSpace(t)
    ensures Strip(x + t) == x
  {
    var s := x + t;
    assert s[0] == x[0];
    assert s[0..] == s;
    assert s[|s| - 1 - |t|] == x[|x| - 1];
    assert forall i :: |s| - |t| <= i < |s| ==> s[i] == t[i - |s| + |t|];
    assert TrailingSpaces(s) == |t|;
    assert s[..|s| - |t|] == x;
  }

  // ---------------------------------------------------------------------
  // str.isdigit

  predicate IsDigitChar(c: char) {
    '0' <= c <= '9'
  }

  /** Python's `s.isdigit()` restricted to the ASCII digits: false on "". */
  predicate IsDigits(s: string) {
    |s| > 0 && forall i :: 0 <= i < |s| ==> IsDigitChar(s[i])
  }
}
