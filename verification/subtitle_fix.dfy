/** `fix_subs.py`: apply a corrections map to the text lines of a SubRip
    file. Index lines, timing lines and blank lines are copied; a text line
    has its stripped content rewritten in place, keeping its surrounding
    whitespace and newline. The fuzzy-matching step is commented out in
    the script, so fixing is the ordered replacements alone. */
module SubtitleFix {
  import opened Text
  import opened Numerals
  import opened SubRip

  /** One `common_errors` entry: every `wrong` becomes `right`. */
  datatype Correction = Correction(wrong: string, right: string)

  /** `fix_subtitle_text`: the corrections applied in the map's order, each
      replacing all occurrences in what the previous ones left. */
  function FixText(text: string, corrections: seq<Correction>): string
    decreases |corrections|
  {
    if |corrections| == 0 then text
    else FixText(Replace(text, corrections[0].wrong, corrections[0].right), corrections[1..])
  }

  /** Applying a map in two parts is applying the first part, then the
      second. */
  lemma {:induction false} FixTextAppend(text: string, a: seq<Correction>, b: seq<Correction>)
    ensures FixText(text, a + b) == FixText(FixText(text, a), b)
    decreases |a|
  {
    if |a| > 0 {
      assert (a + b)[1..] == a[1..] + b;
      FixTextAppend(Replace(text, a[0].wrong, a[0].right), a[1..], b);
    } else {
      assert a + b == b;
    }
  }

  /** With no corrections the text is returned unchanged. */
  lemma FixTextNoCorrections(text: string)
    ensures FixText(text, []) == text
  {
  }

  /** Corrections that map words to themselves change nothing. */
  lemma {:induction false} FixTextIdentityMap(text: string, cs: seq<Correction>)
    requires forall i :: 0 <= i < |cs| ==> cs[i].wrong == cs[i].right
    ensures FixText(text, cs) == text
    decreases |cs|
  {
    if |cs| > 0 {
      ReplaceSelf(text, cs[0].wrong);
      FixTextIdentityMap(text, cs[1..]);
    }
  }

  /** Text containing none of the (non-empty) wrong forms is unchanged. */
  lemma {:induction false} FixTextUntouched(text: string, cs: seq<Correction>)
    requires forall i :: 0 <= i < |cs| ==> |cs[i].wrong| > 0 && !Contains(text, cs[i].wrong)
    ensures FixText(text, cs) == text
    decreases |cs|
  {
    if |cs| > 0 {
      ReplaceAbsent(text, cs[0].wrong, cs[0].right);
      FixTextUntouched(text, cs[1..]);
    }
  }

  /** The map's order matters: a later entry also rewrites what an earlier
      one wrote. */
  lemma FixTextOrderMatters()
    ensures FixText("a", [Correction("a", "b"), Correction("b", "c")]) == "c"
    ensures FixText("a", [Correction("b", "c"), Correction("a", "b")]) == "b"
  {
    ReplaceCharIsSubst("a", 'a', "b");
    ReplaceCharIsSubst("b", 'b', "c");
    ReplaceCharIsSubst("a", 'b', "c");
    assert SubstChar("a", 'a', "b") == "b" + SubstChar([], 'a', "b");
    assert SubstChar("b", 'b', "c") == "c" + SubstChar([], 'b', "c");
    assert SubstChar("a", 'b', "c") == "a" + SubstChar([], 'b', "c");
    assert [Correction("a", "b"), Correction("b", "c")][1..] == [Correction("b", "c")];
    assert [Correction("b", "c"), Correction("a", "b")][1..] == [Correction("a", "b")];
  }

  // ---------------------------------------------------------------------
  // Lines

  /** The classification of `process_srt`: a line is text when its stripped
      form is non-empty, not all digits, and has no `-->`. */
  predicate IsTextLine(line: string) {
    var clean := Strip(line);
    clean != [] && !IsDigits(clean) && !Contains(clean, "-->")
  }

  /** A text line whose stripped form the corrections change. */
  predicate Changed(line: string, cs: seq<Correction>) {
    IsTextLine(line) && FixText(Strip(line), cs) != Strip(line)
  }

  /** The line written out for `line`. */
  function FixLine(line: string, cs: seq<Correction>): string {
    if Changed(line, cs) then Replace(line, Strip(line), FixText(Strip(line), cs)) else line
  }

  function CountText(lines: seq<string>): nat {
    if |lines| == 0 then 0
    else CountText(lines[..|lines| - 1]) + (if IsTextLine(lines[|lines| - 1]) then 1 else 0)
  }

  function CountChanged(lines: seq<string>, cs: seq<Correction>): (n: nat)
    ensures n <= CountText(lines)
  {
    if |lines| == 0 then 0
    else CountChanged(lines[..|lines| - 1], cs) + (if Changed(lines[|lines| - 1], cs) then 1 else 0)
  }

  /** A line is rewritten exactly inside its whitespace: what was around
      the stripped text stays, and the text is its corrected form. */
  lemma FixLineShape(line: string, cs: seq<Correction>)
    ensures IsTextLine(line) ==> FixLine(line, cs) == Leading(line) + FixText(Strip(line), cs) + Trailing(line)
    ensures !IsTextLine(line) ==> FixLine(line, cs) == line
  {
    StripParts(line);
    if Changed(line, cs) {
      ReplaceStripped(line, FixText(Strip(line), cs));
    }
  }

  lemma CountChangedSnoc(lines: seq<string>, k: nat, cs: seq<Correction>)
    requires k < |lines|
    ensures CountChanged(lines[..k + 1], cs) == CountChanged(lines[..k], cs) + (if Changed(lines[k], cs) then 1 else 0)
    ensures FixAll(lines[..k + 1], cs) == FixAll(lines[..k], cs) + [FixLine(lines[k], cs)]
  {
    assert lines[..k + 1][..k] == lines[..k];
  }

  /** The body of the loop for one line. */
  method FixOne(line: string, cs: seq<Correction>) returns (out: string, changed: bool)
    ensures out == FixLine(line, cs)
    ensures changed == Changed(line, cs)
    ensures !changed ==> out == line
  {
    out, changed := line, false;
    var clean := Strip(line);
    if !IsDigits(clean) && !Contains(clean, "-->") && clean != [] {
      var fixed := FixText(clean, cs);
      if fixed != clean {
        out := Replace(line, clean, fixed);
        changed := true;
      }
    }
  }

  /** Every line passed through `FixLine`, as a reference for the loop. */
  function FixAll(lines: seq<string>, cs: seq<Correction>): (r: seq<string>)
    ensures |r| == |lines|
  {
    if |lines| == 0 then []
    else FixAll(lines[..|lines| - 1], cs) + [FixLine(lines[|lines| - 1], cs)]
  }

  lemma {:induction false} FixAllLines(lines: seq<string>, cs: seq<Correction>)
    ensures forall i :: 0 <= i < |lines| ==> FixAll(lines, cs)[i] == FixLine(lines[i], cs)
    decreases |lines|
  {
    if |lines| > 0 {
      var init := lines[..|lines| - 1];
      FixAllLines(init, cs);
      forall i | 0 <= i < |lines|
        ensures FixAll(lines, cs)[i] == FixLine(lines[i], cs)
      {
        if i < |lines| - 1 {
          assert lines[i] == init[i];
        }
      }
    }
  }

  /** The per-line loop of `process_srt` with its `fixed_count`. */
  method FixLines(lines: seq<string>, cs: seq<Correction>) returns (output: seq<string>, fixedCount: nat)
    ensures |output| == |lines|
    ensures forall i :: 0 <= i < |lines| && !IsTextLine(lines[i]) ==> output[i] == lines[i]
    ensures forall i :: 0 <= i < |lines| && IsTextLine(lines[i]) ==>
      output[i] == Leading(lines[i]) + FixText(Strip(lines[i]), cs) + Trailing(lines[i])
    ensures fixedCount == CountChanged(lines, cs) <= CountText(lines)
  {
    output, fixedCount := [], 0;
    for k := 0 to |lines|
      invariant output == FixAll(lines[..k], cs)
      invariant fixedCount == CountChanged(lines[..k], cs)
    {
      var line, changed := FixOne(lines[k], cs);
      if changed {
        fixedCount := fixedCount + 1;
      }
      CountChangedSnoc(lines, k, cs);
      output := output + [line];
    }
    assert lines[..|lines|] == lines;
    FixAllLines(lines, cs);
    FixedLinesShape(lines, output, cs);
  }

  lemma FixedLinesShape(lines: seq<string>, output: seq<string>, cs: seq<Correction>)
    requires |output| == |lines|
    requires forall i :: 0 <= i < |lines| ==> output[i] == FixLine(lines[i], cs)
    ensures forall i :: 0 <= i < |lines| && !IsTextLine(lines[i]) ==> output[i] == lines[i]
    ensures forall i :: 0 <= i < |lines| && IsTextLine(lines[i]) ==>
      output[i] == Leading(lines[i]) + FixText(Strip(lines[i]), cs) + Trailing(lines[i])
  {
    forall i | 0 <= i < |lines|
      ensures !IsTextLine(lines[i]) ==> output[i] == lines[i]
      ensures IsTextLine(lines[i]) ==> output[i] == Leading(lines[i]) + FixText(Strip(lines[i]), cs) + Trailing(lines[i])
    {
      FixLineShape(lines[i], cs);
    }
  }

  // ---------------------------------------------------------------------
  // What the fixer sees in a file the writer made

  lemma DigitsNotSpace(s: string)
    requires AllDigits(s)
    ensures forall i :: 0 <= i < |s| ==> !IsSpace(s[i])
  {
  }

  lemma LinesFour(n: string, t: string, x: string, rest: string)
    requires '\n' !in n && '\n' !in t && '\n' !in x
    ensures Lines(n + "\n" + t + "\n" + x + "\n\n" + rest) == [n + "\n", t + "\n", x + "\n", "\n"] + Lines(rest)
  {
    var r3 := [] + "\n" + rest;
    var r2 := x + "\n" + r3;
    var r1 := t + "\n" + r2;
    assert n + "\n" + t + "\n" + x + "\n\n" + rest == n + "\n" + r1;
    assert [] + "\n" == "\n";
    LinesSeparated([], rest);
    LinesSeparated(x, r3);
    LinesSeparated(t, r2);
    LinesSeparated(n, r1);
  }

  /** The lines of a written cue block are its number, its timing, its
      text and a blank line, each with its newline. */
  lemma BlockLines(i: nat, seg: Segment, rest: string)
    requires '\n' !in Strip(seg.text)
    ensures Lines(SrtBlock(i, seg) + rest)
      == [NatToString(i + 1) + "\n", TimingLine(seg) + "\n", Strip(seg.text) + "\n", "\n"] + Lines(rest)
  {
    IndexDigits(i + 1);
    TimingHasNoNewline(seg);
    LinesFour(NatToString(i + 1), TimingLine(seg), Strip(seg.text), rest);
  }

  lemma IndexLineNotText(i: nat)
    ensures !IsTextLine(NatToString(i + 1) + "\n")
  {
    var n := NatToString(i + 1);
    IndexDigits(i + 1);
    DigitsNotSpace(n);
    StripSpaceTail(n, "\n");
  }

  lemma ArrowLine(a: string, b: string)
    requires |a| > 0 && |b| > 0 && IsDigitChar(a[0]) && IsDigitChar(b[|b| - 1])
    ensures var t := a + " --> " + b; !IsSpace(t[0]) && !IsSpace(t[|t| - 1]) && Contains(t, "-->")
  {
    var t := a + " --> " + b;
    assert t[0] == a[0] && t[|t| - 1] == b[|b| - 1];
    assert t[|a| + 1..|a| + 4] == "-->";
    assert OccursAt(t, "-->", |a| + 1);
  }

  lemma TimingEnds(seg: Segment)
    ensures var t := TimingLine(seg); t != [] && !IsSpace(t[0]) && !IsSpace(t[|t| - 1]) && Contains(t, "-->")
  {
    var a, b := FormatTimestamp(seg.start), FormatTimestamp(seg.end);
    assert |a| > 0 && IsDigitChar(a[0]) by {
      TimestampChars(seg.start);
    }
    assert |b| > 0 && IsDigitChar(b[|b| - 1]) by {
      TimestampChars(seg.end);
    }
    ArrowLine(a, b);
  }

  lemma TimingLineNotText(seg: Segment)
    ensures !IsTextLine(TimingLine(seg) + "\n")
  {
    TimingEnds(seg);
    StripSpaceTail(TimingLine(seg), "\n");
  }

  lemma BlankNotText()
    ensures !IsTextLine("\n")
  {
    assert LeadingSpaces("\n") == 1;
  }

  lemma TextLineClassified(text: string)
    ensures IsTextLine(Strip(text) + "\n") <==>
      Strip(text) != [] && !IsDigits(Strip(text)) && !Contains(Strip(text), "-->")
  {
    var x := Strip(text);
    if x != [] {
      StripEnds(text);
      StripSpaceTail(x, "\n");
    } else {
      assert x + "\n" == "\n";
      BlankNotText();
    }
  }

  /** Of the four lines of a written block, the fixer treats only the text
      line as text, and that one exactly when the stripped segment text is
      non-empty, not all digits and free of `-->`: a cue saying only a
      number is never corrected. */
  lemma BlockClassification(i: nat, seg: Segment)
    ensures !IsTextLine(NatToString(i + 1) + "\n")
    ensures !IsTextLine(TimingLine(seg) + "\n")
    ensures !IsTextLine("\n")
    ensures IsTextLine(Strip(seg.text) + "\n") <==>
      Strip(seg.text) != [] && !IsDigits(Strip(seg.text)) && !Contains(Strip(seg.text), "-->")
  {
    IndexLineNotText(i);
    TimingLineNotText(seg);
    BlankNotText();
    TextLineClassified(seg.text);
  }

  // ---------------------------------------------------------------------
  // Output paths

  /** `file_path.replace(".srt", "_fixed.srt")`: every `.srt` in the path. */
  function OutputPath(path: string): string {
    Replace(path, ".srt", "_fixed.srt")
  }

  /** The directory walk's choice of inputs. */
  predicate SelectedInWalk(name: string) {
    EndsWith(name, ".srt") && !EndsWith(name, "_fixed.srt") && !EndsWith(name, "_ocr.srt")
  }

  /** A path with one `.srt`, at its end, is written beside itself as
      `_fixed.srt`. */
  lemma OutputPathOfSrt(x: string)
    requires !Contains(x, ".srt")
    ensures OutputPath(x + ".srt") == x + "_fixed.srt"
  {
    ReplaceAppendPattern(x, ".srt", "_fixed.srt");
    ReplaceAbsent(x, ".srt", "_fixed.srt");
  }

  /** The fixed file is never picked up again by a later walk. */
  lemma OutputNotReselected(x: string)
    requires !Contains(x, ".srt")
    ensures !SelectedInWalk(OutputPath(x + ".srt"))
  {
    OutputPathOfSrt(x);
    var o := x + "_fixed.srt";
    assert o[|o| - 10..] == "_fixed.srt";
  }

  /** Every `.srt` is replaced, so one inside a directory name moves the
      output to another directory: `a.srt/b.srt` is written as
      `a_fixed.srt/b_fixed.srt`. */
  lemma OutputPathRewritesDirectories(c: char, d: char)
    requires c != '.' && d != '.'
    ensures OutputPath([c] + ".srt" + "/" + [d] + ".srt") == [c] + "_fixed.srt" + "/" + [d] + "_fixed.srt"
  {
    var pat, rep := ".srt", "_fixed.srt";
    var tail := "/" + ([d] + (pat + []));
    Nest([c], pat, "/", [d], pat);
    ReplaceAtStart(pat, [], rep);
    ReplaceSkipChar(d, pat + [], pat, rep);
    ReplaceSkipChar('/', [d] + (pat + []), pat, rep);
    ReplaceAtStart(pat, tail, rep);
    ReplaceSkipChar(c, pat + tail, pat, rep);
    Nest([c], rep, "/", [d], rep);
  }

  lemma Nest(a: string, b: string, c: string, d: string, e: string)
    ensures a + b + c + d + e == a + (b + (c + (d + (e + []))))
  {
    assert e + [] == e;
  }
}
