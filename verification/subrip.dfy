/** The SubRip writer of `extract_subs.py`: `format_timestamp` and the
    numbered cue blocks written for the transcribed segments. A time is a
    count of microseconds, the resolution `timedelta` keeps. */
module SubRip {
  import opened Text
  import opened Numerals
  import opened Wrappers

  const MicrosPerSecond: nat := 1000000

  /** The four fields of a SubRip time. */
  datatype Clock = Clock(hours: nat, minutes: nat, seconds: nat, millis: nat)

  /** The fields `format_timestamp` derives: whole seconds split into hours,
      minutes and seconds, and the milliseconds truncated from the
      sub-second microseconds. */
  function ClockOf(us: nat): (c: Clock)
    ensures c.minutes < 60 && c.seconds < 60 && c.millis < 1000
    ensures c.hours * 3600 + c.minutes * 60 + c.seconds == us / MicrosPerSecond
    ensures (c.hours * 3600 + c.minutes * 60 + c.seconds) * 1000 + c.millis == us / 1000
  {
    var total := us / MicrosPerSecond;
    var c := Clock(total / 3600, (total % 3600) / 60, total % 60, (us % MicrosPerSecond) / 1000);
    MinutesAndSeconds(total);
    MillisOf(us);
    c
  }

  /** Euclidean division by 60 has one remainder. */
  lemma Mod60Unique(a: nat, q: nat, r: nat)
    requires r < 60 && a == 60 * q + r
    ensures a % 60 == r
  {
  }

  /** Euclidean division by 1000 has one quotient. */
  lemma Div1000Unique(a: nat, q: nat, r: nat)
    requires r < 1000 && a == 1000 * q + r
    ensures a / 1000 == q
  {
  }

  lemma MinutesAndSeconds(total: nat)
    ensures total % 3600 == (total % 3600) / 60 * 60 + total % 60
    ensures total / 3600 * 3600 + (total % 3600) / 60 * 60 + total % 60 == total
  {
    var r := total % 3600;
    var q := total / 3600;
    assert total == 3600 * q + r;
    assert r == 60 * (r / 60) + r % 60;
    Mod60Unique(total, 60 * q + r / 60, r % 60);
  }

  lemma MillisOf(us: nat)
    ensures us / 1000 == us / 1000000 * 1000 + (us % 1000000) / 1000
  {
    var t := us / 1000000;
    var m := us % 1000000;
    assert us == 1000000 * t + m;
    assert m == 1000 * (m / 1000) + m % 1000;
    Div1000Unique(us, 1000 * t + m / 1000, m % 1000);
  }

  /** `HH:MM:SS,mmm`; hours take more digits past 99. */
  function FormatTimestamp(us: nat): string {
    var c := ClockOf(us);
    PadNat(c.hours, 2) + ":" + PadNat(c.minutes, 2) + ":" + PadNat(c.seconds, 2) + "," + PadNat(c.millis, 3)
  }

  /** A SubRip time read back as milliseconds: at least two hour digits,
      two minute and two second digits below 60, three millisecond digits. */
  function ParseTimestamp(s: string): Option<nat> {
    if |s| < 12 then None
    else
      var n := |s|;
      if s[n - 10] == ':' && s[n - 7] == ':' && s[n - 4] == ','
      then FieldsValue(s[..n - 10], s[n - 9..n - 7], s[n - 6..n - 4], s[n - 3..])
      else None
  }

  /** The four digit fields of a time read as milliseconds. */
  function FieldsValue(h: string, m: string, sec: string, ms: string): Option<nat> {
    if AllDigits(h) && AllDigits(m) && AllDigits(sec) && AllDigits(ms)
       && DigitsValue(m) < 60 && DigitsValue(sec) < 60
    then Some(((DigitsValue(h) * 60 + DigitsValue(m)) * 60 + DigitsValue(sec)) * 1000 + DigitsValue(ms))
    else None
  }

  /** The written time reads back as the input truncated to milliseconds. */
  lemma ParseFormat(us: nat)
    ensures ParseTimestamp(FormatTimestamp(us)) == Some(us / 1000)
  {
    var c := ClockOf(us);
    var h, m, s, ms := PadNat(c.hours, 2), PadNat(c.minutes, 2), PadNat(c.seconds, 2), PadNat(c.millis, 3);
    assert |h| >= 2 && |m| == 2 && |s| == 2 && |ms| == 3 by {
      assert Pow10(2) == 100 && Pow10(3) == 1000;
      PadNatWidth(c.minutes, 2);
      PadNatWidth(c.seconds, 2);
      PadNatWidth(c.millis, 3);
    }
    var v := FieldsValue(h, m, s, ms);
    assert v.Some? && v.value == us / 1000 by {
      FieldsRead(h, m, s, ms);
      assert (c.hours * 60 + c.minutes) * 60 + c.seconds == c.hours * 3600 + c.minutes * 60 + c.seconds;
    }
    assert ParseTimestamp(FormatTimestamp(us)) == v by {
      ParseFields(h, m, s, ms);
    }
  }

  /** The reader takes the fields apart where the writer put them together. */
  lemma ParseFields(h: string, m: string, s: string, ms: string)
    requires |h| >= 2 && |m| == 2 && |s| == 2 && |ms| == 3
    ensures ParseTimestamp(h + ":" + m + ":" + s + "," + ms) == FieldsValue(h, m, s, ms)
  {
    var t := h + ":" + m + ":" + s + "," + ms;
    FieldSlices(t, h, m, s, ms, ":", ":", ",");
    ParseSeparated(t, h, m, s, ms);
  }

  lemma FieldSlices(t: string, h: string, m: string, s: string, ms: string, a: string, b: string, c: string)
    requires |m| == 2 && |s| == 2 && |ms| == 3 && |a| == 1 && |b| == 1 && |c| == 1
    requires t == h + a + m + b + s + c + ms
    ensures |t| == |h| + 10
    ensures t[..|t| - 10] == h && t[|t| - 10] == a[0] && t[|t| - 9..|t| - 7] == m && t[|t| - 7] == b[0]
    ensures t[|t| - 6..|t| - 4] == s && t[|t| - 4] == c[0] && t[|t| - 3..] == ms
  {
  }

  lemma ParseSeparated(t: string, h: string, m: string, s: string, ms: string)
    requires |t| >= 12 && t[|t| - 10] == ':' && t[|t| - 7] == ':' && t[|t| - 4] == ','
    requires t[..|t| - 10] == h && t[|t| - 9..|t| - 7] == m && t[|t| - 6..|t| - 4] == s && t[|t| - 3..] == ms
    ensures ParseTimestamp(t) == FieldsValue(h, m, s, ms)
  {
  }

  lemma FieldsRead(h: string, m: string, s: string, ms: string)
    requires AllDigits(h) && AllDigits(m) && AllDigits(s) && AllDigits(ms)
    requires DigitsValue(m) < 60 && DigitsValue(s) < 60
    ensures FieldsValue(h, m, s, ms).Some?
    ensures FieldsValue(h, m, s, ms).value == ((DigitsValue(h) * 60 + DigitsValue(m)) * 60 + DigitsValue(s)) * 1000 + DigitsValue(ms)
  {
  }

  /** Below 100 hours the time has the fixed width of `HH:MM:SS,mmm`. */
  lemma TimestampWidth(us: nat)
    requires us < 100 * 3600 * MicrosPerSecond
    ensures |FormatTimestamp(us)| == 12
  {
    var c := ClockOf(us);
    assert Pow10(2) == 100 && Pow10(3) == 1000;
    PadNatWidth(c.hours, 2);
    PadNatWidth(c.minutes, 2);
    PadNatWidth(c.seconds, 2);
    PadNatWidth(c.millis, 3);
  }

  /** A formatted time holds neither a space nor a line break. */
  lemma TimestampPlain(us: nat)
    ensures ' ' !in FormatTimestamp(us) && '\n' !in FormatTimestamp(us)
  {
    var a := FormatTimestamp(us);
    TimestampChars(us);
    forall i | 0 <= i < |a|
      ensures a[i] != ' ' && a[i] != '\n'
    {
    }
  }

  lemma TimestampChars(us: nat)
    ensures forall i :: 0 <= i < |FormatTimestamp(us)| ==>
      IsDigitChar(FormatTimestamp(us)[i]) || FormatTimestamp(us)[i] == ':' || FormatTimestamp(us)[i] == ','
    ensures |FormatTimestamp(us)| >= 12
    ensures IsDigitChar(FormatTimestamp(us)[0]) && IsDigitChar(FormatTimestamp(us)[|FormatTimestamp(us)| - 1])
  {
    var c := ClockOf(us);
    assert Pow10(3) == 1000;
    PadNatWidth(c.millis, 3);
  }

  // ---------------------------------------------------------------------
  // Cue blocks

  /** A transcribed segment: start and end in microseconds, raw text. */
  datatype Segment = Segment(start: nat, end: nat, text: string)

  function TimingLine(seg: Segment): string {
    FormatTimestamp(seg.start) + " --> " + FormatTimestamp(seg.end)
  }

  /** The block written for segment `i` (numbered from 1 in the file). */
  function SrtBlock(i: nat, seg: Segment): string {
    NatToString(i + 1) + "\n" + TimingLine(seg) + "\n" + Strip(seg.text) + "\n\n"
  }

  /** The blocks of `segs`, the first numbered `first + 1`. */
  function Blocks(segs: seq<Segment>, first: nat): string
    decreases |segs|
  {
    if |segs| == 0 then [] else SrtBlock(first, segs[0]) + Blocks(segs[1..], first + 1)
  }

  /** The `.srt` file for a transcription. */
  function SrtDocument(segs: seq<Segment>): string {
    Blocks(segs, 0)
  }

  /** A cue as a reader of the file sees it: its number, start and end in
      milliseconds, and its text. */
  datatype Cue = Cue(index: nat, startMs: nat, endMs: nat, text: string)

  function FirstIndexOf(s: string, c: char): (k: int)
    ensures -1 <= k < |s|
    ensures k >= 0 ==> s[k] == c && forall i :: 0 <= i < k ==> s[i] != c
    ensures k < 0 ==> c !in s
  {
    if |s| == 0 then -1
    else if s[0] == c then 0
    else
      var k := FirstIndexOf(s[1..], c);
      if k < 0 then -1 else k + 1
  }

  function ParseTiming(line: string): Option<(nat, nat)> {
    var k := FirstIndexOf(line, ' ');
    if k < 0 || k + 5 > |line| || line[k..k + 5] != " --> " then None
    else match (ParseTimestamp(line[..k]), ParseTimestamp(line[k + 5..]))
      case (Some(a), Some(b)) => Some((a, b))
      case _ => None
  }

  /** Reading the file's lines: each cue is its number, its timing, one
      text line and a blank line; the file ends after a newline. */
  function ReadCues(parts: seq<string>): Option<seq<Cue>>
    decreases |parts|
  {
    if |parts| == 1 && parts[0] == [] then Some([])
    else if |parts| >= 5 && parts[3] == [] && IsDigits(parts[0]) then
      match (ParseTiming(parts[1]), ReadCues(parts[4..]))
      case (Some((a, b)), Some(rest)) => Some([Cue(DigitsValue(parts[0]), a, b, parts[2])] + rest)
      case _ => None
    else None
  }

  function ReadSrt(content: string): Option<seq<Cue>> {
    ReadCues(Split(content, '\n'))
  }

  /** What the cues of `segs` say, numbering from `first + 1`. */
  function ExpectedCues(segs: seq<Segment>, first: nat): (r: seq<Cue>)
    ensures |r| == |segs|
    decreases |segs|
  {
    if |segs| == 0 then []
    else [Cue(first + 1, segs[0].start / 1000, segs[0].end / 1000, Strip(segs[0].text))] + ExpectedCues(segs[1..], first + 1)
  }

  /** Cue `i` is segment `i`, numbered `first + i + 1`. */
  lemma {:induction false} ExpectedCuesAt(segs: seq<Segment>, first: nat)
    ensures forall i :: 0 <= i < |segs| ==>
      ExpectedCues(segs, first)[i] == Cue(first + i + 1, segs[i].start / 1000, segs[i].end / 1000, Strip(segs[i].text))
    decreases |segs|
  {
    if |segs| > 0 {
      ExpectedCuesAt(segs[1..], first + 1);
      forall i | 0 <= i < |segs|
        ensures ExpectedCues(segs, first)[i] == Cue(first + i + 1, segs[i].start / 1000, segs[i].end / 1000, Strip(segs[i].text))
      {
        if i > 0 {
          assert segs[1..][i - 1] == segs[i];
        }
      }
    }
  }

  lemma ParseTimingLine(seg: Segment)
    ensures ParseTiming(TimingLine(seg)) == Some((seg.start / 1000, seg.end / 1000))
  {
    TimestampPlain(seg.start);
    ParseFormat(seg.start);
    ParseFormat(seg.end);
    ParseJoined(FormatTimestamp(seg.start), FormatTimestamp(seg.end));
  }

  /** The first space of a timing line is the one before the arrow. */
  lemma ParseJoined(a: string, b: string)
    requires ' ' !in a && ParseTimestamp(a).Some? && ParseTimestamp(b).Some?
    ensures ParseTiming(a + " --> " + b) == Some((ParseTimestamp(a).value, ParseTimestamp(b).value))
  {
    var line := a + " --> " + b;
    assert line[|a|] == ' ';
    assert forall i :: 0 <= i < |a| ==> line[i] == a[i];
    assert FirstIndexOf(line, ' ') == |a|;
    assert line[..|a|] == a;
    assert line[|a|..|a| + 5] == " --> ";
    assert line[|a| + 5..] == b;
  }

  lemma IndexDigits(i: nat)
    ensures IsDigits(NatToString(i)) && '\n' !in NatToString(i)
    ensures DigitsValue(NatToString(i)) == i
  {
    DigitsValueOfNatToString(i);
  }

  lemma TimingHasNoNewline(seg: Segment)
    ensures '\n' !in TimingLine(seg)
  {
    TimestampPlain(seg.start);
    TimestampPlain(seg.end);
    assert '\n' !in " --> ";
    NotInAppend('\n', FormatTimestamp(seg.start), " --> ");
    NotInAppend('\n', FormatTimestamp(seg.start) + " --> ", FormatTimestamp(seg.end));
  }

  lemma SplitFour(n: string, t: string, x: string, rest: string)
    requires '\n' !in n && '\n' !in t && '\n' !in x
    ensures Split(n + "\n" + t + "\n" + x + "\n\n" + rest, '\n') == [n, t, x, []] + Split(rest, '\n')
  {
    var r3 := [] + ['\n'] + rest;
    var r2 := x + ['\n'] + r3;
    var r1 := t + ['\n'] + r2;
    assert n + "\n" + t + "\n" + x + "\n\n" + rest == n + ['\n'] + r1;
    var tail := Split(rest, '\n');
    assert Split(r3, '\n') == [[]] + tail by {
      SplitSeparated([], rest, '\n');
    }
    assert Split(r2, '\n') == [x] + ([[]] + tail) by {
      SplitSeparated(x, r3, '\n');
    }
    assert Split(r1, '\n') == [t] + ([x] + ([[]] + tail)) by {
      SplitSeparated(t, r2, '\n');
    }
    assert Split(n + ['\n'] + r1, '\n') == [n] + ([t] + ([x] + ([[]] + tail))) by {
      SplitSeparated(n, r1, '\n');
    }
    ConsFour(n, t, x, [], tail);
  }

  lemma ConsFour<T>(a: T, b: T, c: T, d: T, tail: seq<T>)
    ensures [a] + ([b] + ([c] + ([d] + tail))) == [a, b, c, d] + tail
  {
  }

  /** A block splits into its number, timing, text and a blank line. */
  lemma SplitBlock(i: nat, seg: Segment, rest: string)
    requires '\n' !in Strip(seg.text)
    ensures Split(SrtBlock(i, seg) + rest, '\n')
      == [NatToString(i + 1), TimingLine(seg), Strip(seg.text), []] + Split(rest, '\n')
  {
    IndexDigits(i + 1);
    TimingHasNoNewline(seg);
    SplitFour(NatToString(i + 1), TimingLine(seg), Strip(seg.text), rest);
  }

  lemma ReadCuesStep(n: string, t: string, x: string, tail: seq<string>, a: nat, b: nat, rest: seq<Cue>)
    requires IsDigits(n) && ParseTiming(t) == Some((a, b)) && ReadCues(tail) == Some(rest)
    ensures ReadCues([n, t, x, []] + tail) == Some([Cue(DigitsValue(n), a, b, x)] + rest)
  {
    var parts := [n, t, x, []] + tail;
    assert parts[4..] == tail;
    assert parts[0] == n && parts[1] == t && parts[2] == x && parts[3] == [];
  }

  /** A block in front of a readable file adds its cue in front. */
  lemma ReadBlockStep(i: nat, seg: Segment, rest: string, cues: seq<Cue>)
    requires '\n' !in Strip(seg.text)
    requires ReadSrt(rest) == Some(cues)
    ensures ReadSrt(SrtBlock(i, seg) + rest)
      == Some([Cue(i + 1, seg.start / 1000, seg.end / 1000, Strip(seg.text))] + cues)
  {
    SplitBlock(i, seg, rest);
    ParseTimingLine(seg);
    IndexDigits(i + 1);
    ReadCuesStep(NatToString(i + 1), TimingLine(seg), Strip(seg.text), Split(rest, '\n'),
                 seg.start / 1000, seg.end / 1000, cues);
  }

  /** The written file reads back as one cue per segment, in segment
      order, numbered from 1, with millisecond times and stripped text,
      provided no stripped text spans lines. */
  lemma {:induction false} ReadBlocks(segs: seq<Segment>, first: nat)
    requires forall i :: 0 <= i < |segs| ==> '\n' !in Strip(segs[i].text)
    ensures ReadSrt(Blocks(segs, first)) == Some(ExpectedCues(segs, first))
    decreases |segs|
  {
    if |segs| == 0 {
      SplitNoSeparator([], '\n');
    } else {
      var rest := Blocks(segs[1..], first + 1);
      assert '\n' !in Strip(segs[0].text);
      ReadBlocks(segs[1..], first + 1);
      ReadBlockStep(first, segs[0], rest, ExpectedCues(segs[1..], first + 1));
    }
  }

  /** The whole transcription reads back from its `.srt` file. */
  lemma SrtRoundTrip(segs: seq<Segment>)
    requires forall i :: 0 <= i < |segs| ==> '\n' !in Strip(segs[i].text)
    ensures ReadSrt(SrtDocument(segs)) == Some(ExpectedCues(segs, 0))
  {
    ReadBlocks(segs, 0);
  }
}
