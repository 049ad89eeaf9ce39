/** `check_duration.py`: for every `.mp4` of a directory, in sorted order,
    find its audio track (`.wav` before `.mp3`), compare the two durations
    and count the pairs more than a second apart. The listing is an input,
    existence and `ffprobe` durations are oracles, and durations are exact
    reals. */
module DurationCheck {
  import opened Text
  import opened Numerals
  import opened Paths
  import opened Ordering
  import opened Wrappers

  /** A pair is reported as matching up to this difference, in seconds. */
  const Tolerance: real := 1.0

  // ---------------------------------------------------------------------
  // format_time

  /** `seconds // 60` and `int(seconds % 60)` with Python's flooring
      division: whole minutes, and the whole seconds left over. */
  function MinutesSeconds(t: real): (r: (int, nat))
    ensures r.1 < 60
    ensures (r.0 * 60 + r.1) as real <= t < (r.0 * 60 + r.1 + 1) as real
  {
    var m := (t / 60.0).Floor;
    var rest := t - 60.0 * (m as real);
    assert 0.0 <= rest < 60.0;
    var s := rest.Floor;
    (m, s)
  }

  /** The minutes and seconds are the only split of `t` into whole minutes
      and fewer than sixty whole seconds with less than a second left. */
  lemma MinutesSecondsUnique(t: real, m: int, s: int)
    requires 0 <= s < 60
    requires (m * 60 + s) as real <= t < (m * 60 + s + 1) as real
    ensures MinutesSeconds(t) == (m, s)
  {
    var r := MinutesSeconds(t);
    var a, b := m * 60 + s, r.0 * 60 + r.1;
    assert a == b by {
      assert a as real <= t < (b + 1) as real;
      assert b as real <= t < (a + 1) as real;
    }
    assert (m - r.0) * 60 == r.1 - s;
  }

  /** `format_time`: `m:ss`. */
  function FormatTime(t: real): string {
    var ms := MinutesSeconds(t);
    IntToString(ms.0) + ":" + PadNat(ms.1, 2)
  }

  /** The text ends in two digits holding the seconds, after a colon that
      follows the minutes. */
  lemma FormatTimeFields(t: real)
    ensures var ms := MinutesSeconds(t); var r := FormatTime(t);
      && |r| >= 4
      && r[..|r| - 3] == IntToString(ms.0)
      && r[|r| - 3] == ':'
      && AllDigits(r[|r| - 2..])
      && DigitsValue(r[|r| - 2..]) == ms.1
  {
    var ms := MinutesSeconds(t);
    var ss := PadNat(ms.1, 2);
    PadNatWidth(ms.1, 2);
    var r := FormatTime(t);
    var mm := IntToString(ms.0);
    assert |mm| >= 1;
    assert r == mm + ":" + ss;
    assert r[|r| - 2..] == ss;
    assert r[..|r| - 3] == mm;
  }

  // ---------------------------------------------------------------------
  // The listing

  function LowerAscii(c: char): char {
    if 'A' <= c <= 'Z' then (c as int + 32) as char else c
  }

  /** `f.lower().endswith('.mp4')`. */
  predicate IsMp4Name(f: string) {
    |f| >= 4
    && LowerAscii(f[|f| - 4]) == '.' && LowerAscii(f[|f| - 3]) == 'm'
    && LowerAscii(f[|f| - 2]) == 'p' && LowerAscii(f[|f| - 1]) == '4'
  }

  /** The `.mp4` names of a listing, in listing order. */
  function Mp4Only(listing: seq<string>): (r: seq<string>)
    ensures forall i :: 0 <= i < |r| ==> IsMp4Name(r[i])
  {
    if |listing| == 0 then []
    else
      var last := listing[|listing| - 1];
      Mp4Only(listing[..|listing| - 1]) + (if IsMp4Name(last) then [last] else [])
  }

  /** `sorted(...)` of them. */
  function Mp4Files(listing: seq<string>): (r: seq<string>)
    ensures Sorted(r)
    ensures forall i :: 0 <= i < |r| ==> IsMp4Name(r[i])
  {
    var r := Sort(Mp4Only(listing));
    forall i | 0 <= i < |r|
      ensures IsMp4Name(r[i])
    {
      assert r[i] in multiset(Mp4Only(listing));
      InMultisetIsElement(r[i], Mp4Only(listing));
    }
    r
  }

  /** Each `.mp4` name is kept as often as it is listed; nothing else is. */
  lemma {:induction false} Mp4OnlyCounts(listing: seq<string>, x: string)
    ensures multiset(Mp4Only(listing))[x] == if IsMp4Name(x) then multiset(listing)[x] else 0
    decreases |listing|
  {
    if |listing| > 0 {
      var init, last := listing[..|listing| - 1], listing[|listing| - 1];
      assert listing == init + [last];
      Mp4OnlyCounts(init, x);
    }
  }

  /** The files visited do not depend on the order `os.listdir` returns
      the names in. */
  lemma ListingOrderIrrelevant(l1: seq<string>, l2: seq<string>)
    requires multiset(l1) == multiset(l2)
    ensures Mp4Files(l1) == Mp4Files(l2)
  {
    forall x
      ensures multiset(Mp4Only(l1))[x] == multiset(Mp4Only(l2))[x]
    {
      Mp4OnlyCounts(l1, x);
      Mp4OnlyCounts(l2, x);
    }
    assert multiset(Mp4Only(l1)) == multiset(Mp4Only(l2));
    SortedUnique(Mp4Files(l1), Mp4Files(l2));
  }

  /** A listed name is visited exactly when it ends in `.mp4` in any case. */
  lemma Mp4FilesMembers(listing: seq<string>, x: string)
    ensures x in Mp4Files(listing) <==> x in listing && IsMp4Name(x)
  {
    Mp4OnlyCounts(listing, x);
    assert x in Mp4Files(listing) <==> x in multiset(Mp4Files(listing));
    assert x in listing <==> x in multiset(listing);
  }

  // ---------------------------------------------------------------------
  // Audio selection and classification

  datatype AudioKind = Wav | Mp3

  /** The audio found for `<base>.mp4`: `<base>.wav` when it exists,
      otherwise `<base>.mp3` when that exists. */
  function Audio(dir: string, base: string, present: string -> bool): (r: Option<(string, AudioKind)>)
    ensures r.Some? ==> present(r.value.0)
  {
    var wav, mp3 := Join(dir, base + ".wav"), Join(dir, base + ".mp3");
    if present(wav) then Some((wav, Wav))
    else if present(mp3) then Some((mp3, Mp3))
    else None
  }

  /** One line of the table. */
  datatype Row = Row(file: string, base: string, audioPath: string, kind: AudioKind, video: real, audio: real, ok: bool)

  function Abs(x: real): real {
    if x < 0.0 then -x else x
  }

  /** The row printed for one `.mp4`, if its audio is found. */
  function RowOf(dir: string, file: string, present: string -> bool, duration: string -> real): Option<Row> {
    var base := SplitExtRoot(file);
    match Audio(dir, base, present)
    case None => None
    case Some((path, kind)) =>
      var v, a := duration(Join(dir, file)), duration(path);
      Some(Row(file, base, path, kind, v, a, Abs(v - a) <= Tolerance))
  }

  /** What a row states: the durations of the video and of the chosen
      audio, `.wav` chosen whenever it exists, and `ok` exactly when they
      are at most a second apart. */
  predicate RowSound(dir: string, row: Row, present: string -> bool, duration: string -> real) {
    var wav, mp3 := Join(dir, row.base + ".wav"), Join(dir, row.base + ".mp3");
    && row.base == SplitExtRoot(row.file)
    && row.video == duration(Join(dir, row.file))
    && row.audio == duration(row.audioPath)
    && (row.kind == Wav <==> present(wav))
    && row.audioPath == (if row.kind == Wav then wav else mp3)
    && present(row.audioPath)
    && (row.ok <==> -Tolerance <= row.video - row.audio <= Tolerance)
  }

  predicate HasAudio(dir: string, file: string, present: string -> bool) {
    Audio(dir, SplitExtRoot(file), present).Some?
  }

  /** The files that get a row, in the order visited. */
  function WithAudio(dir: string, files: seq<string>, present: string -> bool): (r: seq<string>)
    ensures |r| <= |files|
  {
    if |files| == 0 then []
    else
      var last := files[|files| - 1];
      WithAudio(dir, files[..|files| - 1], present) + (if HasAudio(dir, last, present) then [last] else [])
  }

  function Names(rows: seq<Row>): (r: seq<string>)
    ensures |r| == |rows|
    ensures forall i :: 0 <= i < |rows| ==> r[i] == rows[i].file
  {
    seq(|rows|, i requires 0 <= i < |rows| => rows[i].file)
  }

  /** `issues_found`. */
  function Mismatches(rows: seq<Row>): (n: nat)
    ensures n <= |rows|
  {
    if |rows| == 0 then 0
    else Mismatches(rows[..|rows| - 1]) + (if rows[|rows| - 1].ok then 0 else 1)
  }

  /** No issue is reported exactly when every row matches. */
  lemma {:induction false} NoMismatches(rows: seq<Row>)
    ensures Mismatches(rows) == 0 <==> forall i :: 0 <= i < |rows| ==> rows[i].ok
    decreases |rows|
  {
    if |rows| > 0 {
      var init := rows[..|rows| - 1];
      NoMismatches(init);
      assert forall i :: 0 <= i < |init| ==> init[i] == rows[i];
    }
  }

  /** Every row mismatching is counted. */
  lemma {:induction false} AllMismatched(rows: seq<Row>)
    requires forall i :: 0 <= i < |rows| ==> !rows[i].ok
    ensures Mismatches(rows) == |rows|
    decreases |rows|
  {
    if |rows| > 0 {
      var init := rows[..|rows| - 1];
      assert forall i :: 0 <= i < |init| ==> init[i] == rows[i];
      AllMismatched(init);
    }
  }

  lemma RowOfSound(dir: string, file: string, present: string -> bool, duration: string -> real)
    ensures RowOf(dir, file, present, duration).Some? <==> HasAudio(dir, file, present)
    ensures var r := RowOf(dir, file, present, duration);
      r.Some? ==> r.value.file == file && RowSound(dir, r.value, present, duration)
  {
  }

  /** The rows for the files visited so far. */
  function Scan(dir: string, files: seq<string>, present: string -> bool, duration: string -> real): seq<Row> {
    if |files| == 0 then []
    else
      var row := RowOf(dir, files[|files| - 1], present, duration);
      Scan(dir, files[..|files| - 1], present, duration) + (if row.Some? then [row.value] else [])
  }

  predicate AllSound(dir: string, rows: seq<Row>, present: string -> bool, duration: string -> real) {
    forall i :: 0 <= i < |rows| ==> RowSound(dir, rows[i], present, duration)
  }

  lemma AllSoundSnoc(dir: string, rows: seq<Row>, row: Row, present: string -> bool, duration: string -> real)
    requires AllSound(dir, rows, present, duration) && RowSound(dir, row, present, duration)
    ensures AllSound(dir, rows + [row], present, duration)
  {
    assert forall i :: 0 <= i < |rows| ==> (rows + [row])[i] == rows[i];
  }

  /** One row per file with audio, in the order visited. */
  lemma {:induction false} ScanNames(dir: string, files: seq<string>, present: string -> bool, duration: string -> real)
    ensures Names(Scan(dir, files, present, duration)) == WithAudio(dir, files, present)
    decreases |files|
  {
    if |files| > 0 {
      var init, last := files[..|files| - 1], files[|files| - 1];
      ScanNames(dir, init, present, duration);
      var prev := Scan(dir, init, present, duration);
      var row := RowOf(dir, last, present, duration);
      assert row.Some? <==> HasAudio(dir, last, present) by {
        RowOfSound(dir, last, present, duration);
      }
      if row.Some? {
        assert row.value.file == last by {
          RowOfSound(dir, last, present, duration);
        }
        NamesSnoc(prev, row.value);
      }
    }
  }

  lemma NamesSnoc(rows: seq<Row>, row: Row)
    ensures Names(rows + [row]) == Names(rows) + [row.file]
  {
  }

  /** Every row of the scan is sound. */
  lemma {:induction false} ScanRowsSound(dir: string, files: seq<string>, present: string -> bool, duration: string -> real)
    ensures AllSound(dir, Scan(dir, files, present, duration), present, duration)
    decreases |files|
  {
    if |files| > 0 {
      var init, last := files[..|files| - 1], files[|files| - 1];
      ScanRowsSound(dir, init, present, duration);
      RowOfSound(dir, last, present, duration);
      var row := RowOf(dir, last, present, duration);
      if row.Some? {
        AllSoundSnoc(dir, Scan(dir, init, present, duration), row.value, present, duration);
      }
    }
  }

  lemma ScanSnoc(dir: string, files: seq<string>, k: nat, present: string -> bool, duration: string -> real)
    requires k < |files|
    ensures var row := RowOf(dir, files[k], present, duration);
      Scan(dir, files[..k + 1], present, duration) == Scan(dir, files[..k], present, duration) + (if row.Some? then [row.value] else [])
  {
    assert files[..k + 1][..k] == files[..k];
  }

  lemma MismatchesSnoc(rows: seq<Row>, row: Row)
    ensures Mismatches(rows + [row]) == Mismatches(rows) + (if row.ok then 0 else 1)
  {
    assert (rows + [row])[..|rows|] == rows;
  }

  /** The body of the loop for one `.mp4`: its row, or nothing when no
      audio is found. */
  method VisitFile(dir: string, file: string, present: string -> bool, duration: string -> real) returns (row: Option<Row>)
    ensures row == RowOf(dir, file, present, duration)
    ensures row.Some? ==> row.value.file == file && RowSound(dir, row.value, present, duration)
  {
    var base := SplitExtRoot(file);
    var audioPath: string, kind: AudioKind;
    if present(Join(dir, base + ".wav")) {
      audioPath, kind := Join(dir, base + ".wav"), Wav;
    } else if present(Join(dir, base + ".mp3")) {
      audioPath, kind := Join(dir, base + ".mp3"), Mp3;
    } else {
      return None;
    }
    var videoDur := duration(Join(dir, file));
    var audioDur := duration(audioPath);
    var diff := Abs(videoDur - audioDur);
    return Some(Row(file, base, audioPath, kind, videoDur, audioDur, diff <= Tolerance));
  }

  datatype Report = Report(rows: seq<Row>, issues: nat)

  /** `check_directory`: nothing when the directory is missing; otherwise
      one row per `.mp4` with audio, in sorted order, each sound, and the
      number of mismatching rows. */
  method CheckDirectory(dirExists: bool, dir: string, listing: seq<string>, present: string -> bool, duration: string -> real)
    returns (report: Option<Report>)
    ensures report.None? <==> !dirExists
    ensures report.Some? ==>
      && Names(report.value.rows) == WithAudio(dir, Mp4Files(listing), present)
      && AllSound(dir, report.value.rows, present, duration)
      && report.value.issues == Mismatches(report.value.rows)
  {
    if !dirExists {
      return None;
    }
    var files := Mp4Files(listing);
    var rows: seq<Row> := [];
    var issues: nat := 0;
    for k := 0 to |files|
      invariant rows == Scan(dir, files[..k], present, duration)
      invariant issues == Mismatches(rows)
    {
      var row := VisitFile(dir, files[k], present, duration);
      if row.Some? {
        assert Scan(dir, files[..k + 1], present, duration) == rows + [row.value]
            && Mismatches(rows + [row.value]) == issues + (if row.value.ok then 0 else 1) by {
          ScanSnoc(dir, files, k, present, duration);
          MismatchesSnoc(rows, row.value);
        }
        rows := rows + [row.value];
        if !row.value.ok {
          issues := issues + 1;
        }
      } else {
        assert Scan(dir, files[..k + 1], present, duration) == rows by {
          ScanSnoc(dir, files, k, present, duration);
        }
      }
    }
    assert rows == Scan(dir, files, present, duration) by {
      assert files[..|files|] == files;
    }
    ScanNames(dir, files, present, duration);
    ScanRowsSound(dir, files, present, duration);
    return Some(Report(rows, issues));
  }
}
