/** The commentary wrapper inside `process_clip`: the commentary is split on
    newlines, and each source line is scanned one character at a time,
    a character above code point 127 counting one column and any other half
    a column; the buffer is flushed as soon as the next character would take
    it past 18 columns. Widths are kept in half columns so they stay natural
    numbers: 2 and 1 per character, limit 36. */
module Layout {
  import opened Text

  /** `MAX_CHARS_PER_LINE` (18 columns), in half columns. */
  const MaxLineWidth: nat := 36

  /** The width of one character, in half columns. */
  function CharWidth(c: char): nat {
    if c as int > 127 then 2 else 1
  }

  function Width(s: string): nat {
    if |s| == 0 then 0 else Width(s[..|s| - 1]) + CharWidth(s[|s| - 1])
  }

  lemma WidthSnoc(s: string, c: char)
    ensures Width(s + [c]) == Width(s) + CharWidth(c)
  {
    assert (s + [c])[..|s|] == s;
  }

  /** The scan of one source line from the point where `current` is the
      buffer and `count` its width: the lines it appends. */
  function WrapFrom(rest: string, current: string, count: nat): seq<string>
    decreases |rest|
  {
    if |rest| == 0 then
      if current != [] then [current] else []
    else
      var w := CharWidth(rest[0]);
      if count + w > MaxLineWidth then [current] + WrapFrom(rest[1..], [rest[0]], w)
      else WrapFrom(rest[1..], current + [rest[0]], count + w)
  }

  /** The lines one source line wraps into. */
  function WrapLine(line: string): seq<string> {
    WrapFrom(line, [], 0)
  }

  function WrapLines(sourceLines: seq<string>): seq<string> {
    if |sourceLines| == 0 then [] else WrapLine(sourceLines[0]) + WrapLines(sourceLines[1..])
  }

  /** `processed_lines` for a commentary text. */
  function WrapCommentary(commentary: string): seq<string> {
    WrapLines(Split(commentary, '\n'))
  }

  // ---------------------------------------------------------------------
  // Properties of one source line

  predicate WellWrapped(pieces: seq<string>) {
    forall i :: 0 <= i < |pieces| ==> pieces[i] != [] && Width(pieces[i]) <= MaxLineWidth
  }

  /** Every emitted line is non-empty and at most 18 columns wide. */
  lemma {:induction false} WrapFromWellWrapped(rest: string, current: string, count: nat)
    requires count == Width(current) <= MaxLineWidth
    ensures WellWrapped(WrapFrom(rest, current, count))
    decreases |rest|
  {
    if |rest| > 0 {
      var x := rest[0];
      var w := CharWidth(x);
      if count + w > MaxLineWidth {
        WidthSnoc([], x);
        assert [] + [x] == [x];
        WrapFromWellWrapped(rest[1..], [x], w);
        assert current != [];
        var tail := WrapFrom(rest[1..], [x], w);
        assert WrapFrom(rest, current, count) == [current] + tail;
      } else {
        WidthSnoc(current, x);
        WrapFromWellWrapped(rest[1..], current + [x], count + w);
      }
    }
  }

  /** A character absent from the source line is absent from every emitted line. */
  lemma {:induction false} WrapFromAvoids(rest: string, current: string, count: nat, c: char)
    requires c !in current && c !in rest
    ensures forall i :: 0 <= i < |WrapFrom(rest, current, count)| ==> c !in WrapFrom(rest, current, count)[i]
    decreases |rest|
  {
    if |rest| > 0 {
      var x := rest[0];
      var w := CharWidth(x);
      assert x != c;
      assert c !in rest[1..];
      if count + w > MaxLineWidth {
        WrapFromAvoids(rest[1..], [x], w, c);
        var tail := WrapFrom(rest[1..], [x], w);
        assert WrapFrom(rest, current, count) == [current] + tail;
      } else {
        WrapFromAvoids(rest[1..], current + [x], count + w, c);
      }
    }
  }

  /** Concatenating the emitted lines gives back the buffer and the rest of
      the source line. */
  lemma {:induction false} WrapFromConcat(rest: string, current: string, count: nat)
    ensures Concat(WrapFrom(rest, current, count)) == current + rest
    decreases |rest|
  {
    if |rest| == 0 {
      assert current + rest == current;
    } else {
      var x := rest[0];
      assert rest == [x] + rest[1..];
      if count + CharWidth(x) > MaxLineWidth {
        WrapFromConcat(rest[1..], [x], CharWidth(x));
      } else {
        WrapFromConcat(rest[1..], current + [x], count + CharWidth(x));
      }
    }
  }

  /** A non-empty buffer is the start of the first emitted line. */
  lemma {:induction false} WrapFromFirst(rest: string, current: string, count: nat)
    requires current != []
    ensures |WrapFrom(rest, current, count)| > 0
    ensures current <= WrapFrom(rest, current, count)[0]
    decreases |rest|
  {
    if |rest| > 0 {
      var x := rest[0];
      if count + CharWidth(x) <= MaxLineWidth {
        WrapFromFirst(rest[1..], current + [x], count + CharWidth(x));
      }
    }
  }

  /** Greedy: a line is cut only when the next character would not fit. */
  predicate Greedy(pieces: seq<string>) {
    forall i :: 1 <= i < |pieces| ==>
      (pieces[i] != [] && Width(pieces[i - 1]) + CharWidth(pieces[i][0]) > MaxLineWidth)
  }

  /** A line cut off before the first character of a greedy tail keeps it greedy. */
  lemma GreedyCons(current: string, tail: seq<string>)
    requires Greedy(tail) && tail != [] && tail[0] != []
    requires Width(current) + CharWidth(tail[0][0]) > MaxLineWidth
    ensures Greedy([current] + tail)
  {
    var all := [current] + tail;
    forall i | 1 <= i < |all|
      ensures all[i] != [] && Width(all[i - 1]) + CharWidth(all[i][0]) > MaxLineWidth
    {
      assert all[i] == tail[i - 1];
      if i > 1 {
        assert all[i - 1] == tail[i - 2];
      }
    }
  }

  lemma {:induction false} WrapFromGreedy(rest: string, current: string, count: nat)
    requires count == Width(current)
    ensures Greedy(WrapFrom(rest, current, count))
    decreases |rest|
  {
    if |rest| > 0 {
      var x := rest[0];
      var w := CharWidth(x);
      if count + w > MaxLineWidth {
        assert w == Width([x]) by {
          WidthSnoc([], x);
          assert [] + [x] == [x];
        }
        WrapFromGreedy(rest[1..], [x], w);
        WrapFromFirst(rest[1..], [x], w);
        GreedyCons(current, WrapFrom(rest[1..], [x], w));
      } else {
        WidthSnoc(current, x);
        WrapFromGreedy(rest[1..], current + [x], count + w);
      }
    }
  }

  /** One source line: emitted lines are non-empty, at most 18 columns, cut
      greedily, and concatenate back to the source line; an empty source line
      emits nothing. */
  lemma WrapLineSound(line: string)
    ensures WellWrapped(WrapLine(line)) && Greedy(WrapLine(line))
    ensures Concat(WrapLine(line)) == line
    ensures line == [] <==> WrapLine(line) == []
    ensures '\n' !in line ==> forall i :: 0 <= i < |WrapLine(line)| ==> '\n' !in WrapLine(line)[i]
  {
    WrapFromWellWrapped(line, [], 0);
    if '\n' !in line {
      WrapFromAvoids(line, [], 0, '\n');
    }
    WrapFromGreedy(line, [], 0);
    WrapFromConcat(line, [], 0);
    assert [] + line == line;
  }

  // ---------------------------------------------------------------------
  // Lines of one uniform width

  /** `s` cut into consecutive pieces of `k` characters, the last shorter. */
  function Chunks(s: string, k: nat): seq<string>
    requires k > 0
    decreases |s|
  {
    if |s| == 0 then [] else if |s| <= k then [s] else [s[..k]] + Chunks(s[k..], k)
  }

  predicate UniformWidth(s: string, w: nat) {
    forall i :: 0 <= i < |s| ==> CharWidth(s[i]) == w
  }

  /** The characters a line of width `w` each holds: 36 ASCII or 18 wide ones. */
  predicate LineCapacity(w: nat, k: nat) {
    (w == 1 && k == 36) || (w == 2 && k == 18)
  }

  lemma {:induction false} WrapFromUniform(rest: string, current: string, w: nat, k: nat)
    requires LineCapacity(w, k)
    requires UniformWidth(current + rest, w)
    requires |current| <= k
    ensures WrapFrom(rest, current, |current| * w) == Chunks(current + rest, k)
    decreases |rest|
  {
    if |rest| == 0 {
      assert current + rest == current;
    } else {
      var x := rest[0];
      assert (current + rest)[|current|] == x;
      assert CharWidth(x) == w;
      if |current| == k {
        assert |current| * w + w > MaxLineWidth;
        assert (current + rest)[..k] == current;
        assert (current + rest)[k..] == rest;
        assert [x] + rest[1..] == rest;
        assert UniformWidth([x] + rest[1..], w);
        WrapFromUniform(rest[1..], [x], w, k);
      } else {
        assert |current| * w + w <= MaxLineWidth;
        assert (current + [x]) + rest[1..] == current + rest;
        WrapFromUniform(rest[1..], current + [x], w, k);
      }
    }
  }

  /** An all-ASCII line is cut every 36 characters. */
  lemma WrapAscii(line: string)
    requires forall i :: 0 <= i < |line| ==> line[i] as int <= 127
    ensures WrapLine(line) == Chunks(line, 36)
  {
    assert UniformWidth([] + line, 1) by {
      assert [] + line == line;
    }
    WrapFromUniform(line, [], 1, 36);
    assert [] + line == line;
  }

  /** A line of wide characters only is cut every 18 characters. */
  lemma WrapWide(line: string)
    requires forall i :: 0 <= i < |line| ==> line[i] as int > 127
    ensures WrapLine(line) == Chunks(line, 18)
  {
    assert UniformWidth([] + line, 2) by {
      assert [] + line == line;
    }
    WrapFromUniform(line, [], 2, 18);
    assert [] + line == line;
  }

  /** 36 ASCII characters fit one line; a 37th starts a second. */
  lemma AsciiBoundary()
    ensures WrapLine(seq(36, _ => 'A')) == [seq(36, _ => 'A')]
    ensures WrapLine(seq(37, _ => 'A')) == [seq(36, _ => 'A'), "A"]
  {
    WrapAscii(seq(36, _ => 'A'));
    var long := seq(37, _ => 'A');
    WrapAscii(long);
    assert long[..36] == seq(36, _ => 'A');
    assert long[36..] == "A";
  }

  /** 20 wide characters make a line of 18 and a line of 2. */
  lemma WideBoundary()
    ensures WrapLine(seq(20, _ => '\U{4e2d}')) == [seq(18, _ => '\U{4e2d}'), seq(2, _ => '\U{4e2d}')]
  {
    var line := seq(20, _ => '\U{4e2d}');
    WrapWide(line);
    assert line[..18] == seq(18, _ => '\U{4e2d}');
    assert line[18..] == seq(2, _ => '\U{4e2d}');
  }

  // ---------------------------------------------------------------------
  // The whole commentary

  lemma {:induction false} WrapLinesAppend(ls: seq<string>, l: string)
    ensures WrapLines(ls + [l]) == WrapLines(ls) + WrapLine(l)
    decreases |ls|
  {
    if |ls| == 0 {
      assert ls + [l] == [l];
    } else {
      assert (ls + [l])[1..] == ls[1..] + [l];
      WrapLinesAppend(ls[1..], l);
    }
  }

  lemma {:induction false} WrapLinesSound(ls: seq<string>)
    requires forall i :: 0 <= i < |ls| ==> '\n' !in ls[i]
    ensures WellWrapped(WrapLines(ls))
    ensures forall i :: 0 <= i < |WrapLines(ls)| ==> '\n' !in WrapLines(ls)[i]
    decreases |ls|
  {
    if |ls| > 0 {
      WrapLineSound(ls[0]);
      WrapLinesSound(ls[1..]);
    }
  }

  /** Every line of the wrapped commentary is non-empty, at most 18 columns
      and free of newlines. */
  lemma WrapCommentarySound(commentary: string)
    ensures WellWrapped(WrapCommentary(commentary))
    ensures forall i :: 0 <= i < |WrapCommentary(commentary)| ==> '\n' !in WrapCommentary(commentary)[i]
  {
    WrapLinesSound(Split(commentary, '\n'));
  }

  /** Nothing is lost: grouping the wrapped lines by source line, gluing
      each group and joining the groups with newlines gives the commentary. */
  lemma CommentaryRecovered(commentary: string)
    ensures var parts := Split(commentary, '\n');
      JoinWith(seq(|parts|, i requires 0 <= i < |parts| => Concat(WrapLine(parts[i]))), "\n") == commentary
  {
    var parts := Split(commentary, '\n');
    var glued := seq(|parts|, i requires 0 <= i < |parts| => Concat(WrapLine(parts[i])));
    forall i | 0 <= i < |parts|
      ensures glued[i] == parts[i]
    {
      WrapLineSound(parts[i]);
    }
    assert glued == parts;
    JoinSplit(commentary, '\n');
  }

  /** The inner loop of `process_clip` over the characters of one source
      line, as written: the lines it appends to `processed_lines`. */
  method WrapLineLoop(line: string) returns (appended: seq<string>)
    ensures appended == WrapLine(line)
    ensures WellWrapped(appended) && Concat(appended) == line
  {
    appended := [];
    var current: string := [];
    var count: nat := 0;
    for j := 0 to |line|
      invariant count == Width(current) <= MaxLineWidth
      invariant appended + WrapFrom(line[j..], current, count) == WrapLine(line)
    {
      var ch := line[j];
      var charLen := CharWidth(ch);
      assert line[j..][1..] == line[j + 1..];
      if count + charLen > MaxLineWidth {
        appended := appended + [current];
        current := [ch];
        count := charLen;
        WidthSnoc([], ch);
        assert [] + [ch] == [ch];
      } else {
        WidthSnoc(current, ch);
        current := current + [ch];
        count := count + charLen;
      }
    }
    if current != [] {
      appended := appended + [current];
    }
    WrapLineSound(line);
  }

  /** The loop of `process_clip` that builds `processed_lines`, as written. */
  method ProcessedLines(commentary: string) returns (processed: seq<string>)
    ensures processed == WrapCommentary(commentary)
    ensures WellWrapped(processed)
    ensures forall i :: 0 <= i < |processed| ==> '\n' !in processed[i]
  {
    var originalLines := Split(commentary, '\n');
    processed := [];
    for k := 0 to |originalLines|
      invariant processed == WrapLines(originalLines[..k])
    {
      var line := originalLines[k];
      var appended := WrapLineLoop(line);
      processed := processed + appended;
      assert originalLines[..k + 1] == originalLines[..k] + [line];
      WrapLinesAppend(originalLines[..k], line);
    }
    assert originalLines[..|originalLines|] == originalLines;
    WrapCommentarySound(commentary);
  }
}
