/** The driver of `produce_short_video.py`: process the clips in document
    order, keep the ones that produced a file, write them to a concat
    manifest and merge them, and name the result after the strategy file. */
module Pipeline {
  import opened Text
  import opened Wrappers
  import opened Paths
  import opened Executor
  import opened ClipProcessor

  // ---------------------------------------------------------------------
  // The clip loop

  /** Every clip's result, every command handed to `run_cmd`, and the
      number of launches used. */
  datatype BatchRun = BatchRun(results: seq<Option<string>>, commands: seq<seq<string>>, launches: nat)

  /** The loop over `strategy_data["clips"]`; each clip's launches follow
      those of the clips before it. */
  function ProcessClips(script: Script, pos: nat, sizes: Sizes, clips: seq<Clip>, video: string, temp: string, font: string): (r: BatchRun)
    ensures |r.results| == |clips|
    ensures forall i :: 0 <= i < |clips| && r.results[i].Some? ==> r.results[i].value == FinalPath(temp, clips[i].id)
    decreases |clips|
  {
    if |clips| == 0 then BatchRun([], [], 0)
    else
      var first := ProcessClip(script, pos, sizes, clips[0], video, temp, font);
      var rest := ProcessClips(script, pos + first.launches, sizes, clips[1..], video, temp, font);
      BatchRun([first.result] + rest.results, first.commands + rest.commands, first.launches + rest.launches)
  }

  /** A rerun over clips whose renders all exist launches nothing and
      returns every clip's render. */
  lemma {:induction false} AllSkippedIsQuiet(script: Script, pos: nat, sizes: Sizes, clips: seq<Clip>, video: string, temp: string, font: string)
    requires forall i :: 0 <= i < |clips| ==> ShouldSkip(sizes, FinalPath(temp, clips[i].id))
    ensures var r := ProcessClips(script, pos, sizes, clips, video, temp, font);
      && r.commands == [] && r.launches == 0
      && forall i :: 0 <= i < |clips| ==> r.results[i] == Some(FinalPath(temp, clips[i].id))
    decreases |clips|
  {
    if |clips| > 0 {
      SkipIssuesNothing(script, pos, sizes, clips[0], video, temp, font);
      AllSkippedIsQuiet(script, pos, sizes, clips[1..], video, temp, font);
    }
  }

  /** `valid_clips`: the results that are paths, in clip order. */
  function Successful(results: seq<Option<string>>): (v: seq<string>)
    ensures |v| <= |results|
  {
    if |results| == 0 then []
    else (if results[0].Some? then [results[0].value] else []) + Successful(results[1..])
  }

  function Shift(idx: seq<nat>): (r: seq<nat>)
    ensures |r| == |idx| && forall k :: 0 <= k < |idx| ==> r[k] == idx[k] + 1
  {
    seq(|idx|, k requires 0 <= k < |idx| => idx[k] + 1)
  }

  /** Every position in `idx` holds a path. */
  predicate Valid(idx: seq<nat>, results: seq<Option<string>>) {
    forall k :: 0 <= k < |idx| ==> idx[k] < |results| && results[idx[k]].Some?
  }

  /** Every position holding a path is in `idx`. */
  predicate Covers(idx: seq<nat>, results: seq<Option<string>>) {
    forall i :: 0 <= i < |results| && results[i].Some? ==> i in idx
  }

  predicate Increasing(idx: seq<nat>) {
    forall k, l :: 0 <= k < l < |idx| ==> idx[k] < idx[l]
  }

  /** The positions of the results that are paths, in order. */
  function SuccessIndices(results: seq<Option<string>>): (idx: seq<nat>)
    ensures |idx| <= |results|
    ensures Valid(idx, results)
  {
    if |results| == 0 then []
    else
      var rest := SuccessIndices(results[1..]);
      ShiftValid(rest, results);
      if results[0].Some? then [0] + Shift(rest) else Shift(rest)
  }

  lemma ShiftValid(rest: seq<nat>, results: seq<Option<string>>)
    requires |results| > 0 && Valid(rest, results[1..])
    ensures Valid(Shift(rest), results)
    ensures results[0].Some? ==> Valid([0] + Shift(rest), results)
  {
    var r := Shift(rest);
    forall k | 0 <= k < |r|
      ensures r[k] < |results| && results[r[k]].Some?
    {
      assert results[1..][rest[k]] == results[rest[k] + 1];
    }
    var z := [0] + r;
    forall k | 0 <= k < |z| && results[0].Some?
      ensures z[k] < |results| && results[z[k]].Some?
    {
      if k > 0 {
        assert z[k] == r[k - 1];
      }
    }
  }

  lemma ShiftIncreasing(idx: seq<nat>)
    requires Increasing(idx)
    ensures Increasing(Shift(idx)) && Increasing([0] + Shift(idx))
  {
    var r := Shift(idx);
    var z := [0] + r;
    forall k, l | 0 <= k < l < |z|
      ensures z[k] < z[l]
    {
      assert z[l] == idx[l - 1] + 1;
      if k > 0 {
        assert z[k] == idx[k - 1] + 1;
      }
    }
  }

  lemma ShiftCovers(rest: seq<nat>, results: seq<Option<string>>)
    requires |results| > 0 && Covers(rest, results[1..])
    ensures Covers((if results[0].Some? then [0] else []) + Shift(rest), results)
  {
    var head := if results[0].Some? then 1 else 0;
    var idx := (if results[0].Some? then [0] else []) + Shift(rest);
    forall i | 0 <= i < |results| && results[i].Some?
      ensures i in idx
    {
      if i == 0 {
        assert idx[0] == 0;
      } else {
        assert results[1..][i - 1] == results[i];
        assert i - 1 in rest;
        var k :| 0 <= k < |rest| && rest[k] == i - 1;
        assert idx[k + head] == i;
      }
    }
  }

  /** The positions are strictly increasing. */
  lemma {:induction false} SuccessIndicesIncreasing(results: seq<Option<string>>)
    ensures Increasing(SuccessIndices(results))
    decreases |results|
  {
    if |results| > 0 {
      SuccessIndicesIncreasing(results[1..]);
      ShiftIncreasing(SuccessIndices(results[1..]));
    }
  }

  /** Every position holding a path is listed. */
  lemma {:induction false} SuccessIndicesComplete(results: seq<Option<string>>)
    ensures Covers(SuccessIndices(results), results)
    decreases |results|
  {
    if |results| > 0 {
      SuccessIndicesComplete(results[1..]);
      var rest := SuccessIndices(results[1..]);
      ShiftCovers(rest, results);
      assert SuccessIndices(results) == (if results[0].Some? then [0] else []) + Shift(rest);
    }
  }

  /** `valid_clips` keeps exactly the successful results and keeps their
      order: its k-th path is the result at the k-th successful position. */
  lemma {:induction false} SuccessfulInOrder(results: seq<Option<string>>)
    ensures |Successful(results)| == |SuccessIndices(results)|
    ensures forall k :: 0 <= k < |Successful(results)| ==>
      Successful(results)[k] == results[SuccessIndices(results)[k]].value
    decreases |results|
  {
    if |results| > 0 {
      SuccessfulInOrder(results[1..]);
      var rest := SuccessIndices(results[1..]);
      var tail := Successful(results[1..]);
      var idx := SuccessIndices(results);
      var v := Successful(results);
      var head := if results[0].Some? then 1 else 0;
      assert idx == (if results[0].Some? then [0] else []) + Shift(rest);
      assert |v| == head + |tail|;
      forall k | 0 <= k < |v|
        ensures v[k] == results[idx[k]].value
      {
        if k >= head {
          assert v[k] == tail[k - head];
          assert idx[k] == rest[k - head] + 1;
          assert results[rest[k - head] + 1] == results[1..][rest[k - head]];
        }
      }
    }
  }

  /** No clip succeeded exactly when no result is a path. */
  lemma {:induction false} NothingSuccessful(results: seq<Option<string>>)
    ensures Successful(results) == [] <==> forall i :: 0 <= i < |results| ==> results[i].None?
    decreases |results|
  {
    if |results| > 0 {
      NothingSuccessful(results[1..]);
      assert forall i :: 1 <= i < |results| ==> results[i] == results[1..][i - 1];
    }
  }

  // ---------------------------------------------------------------------
  // The merge manifest

  /** One line of `merge_list.txt`; `abspath` stands for `os.path.abspath`,
      which depends on the working directory. */
  function ManifestLine(abspath: string -> string, p: string): string {
    "file '" + Normalize(abspath(p)) + "'\n"
  }

  /** Backslashes written as forward slashes. */
  function Normalize(p: string): string {
    Replace(p, "\\", "/")
  }

  function ManifestLines(abspath: string -> string, paths: seq<string>): (lines: seq<string>)
    ensures |lines| == |paths|
    ensures forall k :: 0 <= k < |paths| ==> lines[k] == ManifestLine(abspath, paths[k])
  {
    seq(|paths|, k requires 0 <= k < |paths| => ManifestLine(abspath, paths[k]))
  }

  /** The contents of `merge_list.txt`. */
  function Manifest(abspath: string -> string, paths: seq<string>): string {
    Concat(ManifestLines(abspath, paths))
  }

  /** The path named by a `file '...'` line, without its newline. */
  function Entry(line: string): Option<string> {
    if |line| >= 7 && line[..6] == "file '" && line[|line| - 1] == '\'' then Some(line[6..|line| - 1]) else None
  }

  function ReadEntries(parts: seq<string>): Option<seq<string>>
    decreases |parts|
  {
    if |parts| == 0 then None
    else if |parts| == 1 then (if parts[0] == [] then Some([]) else None)
    else match Entry(parts[0])
      case None => None
      case Some(p) =>
        match ReadEntries(parts[1..])
        case None => None
        case Some(ps) => Some([p] + ps)
  }

  /** The model's reader of the list: newline-terminated `file '...'`
      lines, the path taken verbatim between the quotes. It is not the
      concat demuxer's own parser. */
  function ReadManifest(content: string): Option<seq<string>> {
    ReadEntries(Split(content, '\n'))
  }

  function NormalizedPaths(abspath: string -> string, paths: seq<string>): (r: seq<string>)
    ensures |r| == |paths| && forall k :: 0 <= k < |paths| ==> r[k] == Normalize(abspath(paths[k]))
  {
    seq(|paths|, k requires 0 <= k < |paths| => Normalize(abspath(paths[k])))
  }

  lemma EntryOfLine(q: string)
    ensures Entry("file '" + q + "'") == Some(q)
  {
    var line := "file '" + q + "'";
    assert line[..6] == "file '";
    assert line[6..|line| - 1] == q;
  }

  /** The manifest lists the merged clips one per line, in clip order, as
      long as no absolute path holds a newline. */
  lemma {:induction false} ManifestReadsBack(abspath: string -> string, paths: seq<string>)
    requires forall k :: 0 <= k < |paths| ==> '\n' !in Normalize(abspath(paths[k]))
    ensures ReadManifest(Manifest(abspath, paths)) == Some(NormalizedPaths(abspath, paths))
    decreases |paths|
  {
    if |paths| == 0 {
      assert Manifest(abspath, paths) == [];
      SplitNoSeparator([], '\n');
    } else {
      var q := Normalize(abspath(paths[0]));
      var line := "file '" + q + "'";
      var tail := Manifest(abspath, paths[1..]);
      assert Manifest(abspath, paths) == line + ['\n'] + tail by {
        var lines := ManifestLines(abspath, paths);
        assert lines[1..] == ManifestLines(abspath, paths[1..]);
      }
      assert Split(line + ['\n'] + tail, '\n') == [line] + Split(tail, '\n') by {
        assert '\n' !in line;
        SplitSeparated(line, tail, '\n');
      }
      ManifestReadsBack(abspath, paths[1..]);
      EntryOfLine(q);
      ReadEntriesCons(line, Split(tail, '\n'));
      NormalizedPathsCons(abspath, paths);
    }
  }

  lemma NormalizedPathsCons(abspath: string -> string, paths: seq<string>)
    requires |paths| > 0
    ensures NormalizedPaths(abspath, paths) == [Normalize(abspath(paths[0]))] + NormalizedPaths(abspath, paths[1..])
  {
  }

  lemma ReadEntriesCons(line: string, rest: seq<string>)
    requires Entry(line).Some? && ReadEntries(rest).Some? && rest != []
    ensures ReadEntries([line] + rest) == Some([Entry(line).value] + ReadEntries(rest).value)
  {
    assert ([line] + rest)[1..] == rest;
  }

  // ---------------------------------------------------------------------
  // The run as a whole

  function MergeCommand(listPath: string, outputPath: string): seq<string> {
    ["ffmpeg", "-f", "concat", "-safe", "0", "-i", listPath, "-c", "copy", "-y", outputPath]
  }

  /** The clip loop, then, when anything succeeded, the manifest written to
      the temp directory and the merge command. */
  datatype Production = Production(batch: BatchRun, manifest: Option<string>, merge: Option<seq<string>>)

  function Produce(script: Script, pos: nat, sizes: Sizes, clips: seq<Clip>, video: string, temp: string,
                   outputDir: string, finalFilename: string, font: string, abspath: string -> string): (p: Production)
    ensures p.manifest.Some? <==> p.merge.Some?
    ensures p.merge.Some? ==> |p.merge.value| == 11 && p.merge.value[6] == Join(temp, "merge_list.txt") && p.merge.value[10] == Join(outputDir, finalFilename)
  {
    var batch := ProcessClips(script, pos, sizes, clips, video, temp, font);
    var valid := Successful(batch.results);
    if valid == [] then Production(batch, None, None)
    else Production(batch, Some(Manifest(abspath, valid)),
                    Some(MergeCommand(Join(temp, "merge_list.txt"), Join(outputDir, finalFilename))))
  }

  /** No merge is attempted when no clip produced a file; otherwise, when
      no produced file's absolute path holds a newline, the manifest reads
      back as the produced files, in clip order. */
  lemma ProduceMerges(script: Script, pos: nat, sizes: Sizes, clips: seq<Clip>, video: string, temp: string,
                      outputDir: string, finalFilename: string, font: string, abspath: string -> string)
    requires var p := Produce(script, pos, sizes, clips, video, temp, outputDir, finalFilename, font, abspath);
      var valid := Successful(p.batch.results);
      forall k :: 0 <= k < |valid| ==> '\n' !in Normalize(abspath(valid[k]))
    ensures var p := Produce(script, pos, sizes, clips, video, temp, outputDir, finalFilename, font, abspath);
      && (p.merge.None? <==> forall i :: 0 <= i < |clips| ==> p.batch.results[i].None?)
      && (p.manifest.Some? ==> ReadManifest(p.manifest.value) == Some(NormalizedPaths(abspath, Successful(p.batch.results))))
  {
    var p := Produce(script, pos, sizes, clips, video, temp, outputDir, finalFilename, font, abspath);
    NothingSuccessful(p.batch.results);
    ManifestReadsBack(abspath, Successful(p.batch.results));
  }

  // ---------------------------------------------------------------------
  // Naming

  /** `video_basename`: the strategy file's name without extension, with
      every `-Strategy` removed. */
  function VideoBasename(configPath: string): string {
    Replace(SplitExtRoot(Basename(configPath)), "-Strategy", "")
  }

  /** `final_filename`. */
  function FinalFilename(configPath: string): string {
    VideoBasename(configPath) + "-Clip.mp4"
  }

  /** The source video looked up first. */
  function VideoPath(downloadsDir: string, configPath: string): string {
    Join(downloadsDir, VideoBasename(configPath) + ".mp4")
  }

  /** The marker cannot overlap itself: its dash does not recur. */
  lemma StrategyMarkerUnique()
    ensures "-Strategy"[0] !in "-Strategy"[1..]
  {
    assert "-Strategy"[1..] == "Strategy";
  }


  /** The stem of a `.json` file in a directory is the file name without
      the extension. */
  lemma StemOfConfigPath(dir: string, stem: string)
    requires '/' !in stem && !AllDots(stem)
    ensures SplitExtRoot(Basename(dir + "/" + stem + ".json")) == stem
  {
    var name := stem + ".json";
    assert '/' !in name by {
      assert forall i :: 0 <= i < |name| ==> name[i] == if i < |stem| then stem[i] else ".json"[i - |stem|];
    }
    assert dir + "/" + stem + ".json" == dir + "/" + name;
    BasenameAfterSlash(dir, name);
    SplitExtRootOfName(stem, ".json");
  }

  /** For `<dir>/X-Strategy.json` with no other `-Strategy` in `X`, the
      video looked up is `X.mp4` in the downloads directory and the result
      `X-Clip.mp4`. */
  lemma StrategyNaming(downloads: string, dir: string, x: string)
    requires '/' !in x && !Contains(x, "-Strategy")
    ensures VideoBasename(dir + "/" + x + "-Strategy" + ".json") == x
    ensures VideoPath(downloads, dir + "/" + x + "-Strategy" + ".json") == Join(downloads, x + ".mp4")
    ensures FinalFilename(dir + "/" + x + "-Strategy" + ".json") == x + "-Clip.mp4"
  {
    var stem := x + "-Strategy";
    var path := dir + "/" + x + "-Strategy" + ".json";
    assert SplitExtRoot(Basename(path)) == stem by {
      AppendAssoc(dir + "/", x, "-Strategy");
      assert '/' !in stem by {
        assert '/' !in "-Strategy";
        NotInAppend('/', x, "-Strategy");
      }
      assert stem[|x|] == '-';
      StemOfConfigPath(dir, stem);
    }
    assert Replace(stem, "-Strategy", "") == x by {
      StrategyMarkerUnique();
      ReplaceAppendPattern(x, "-Strategy", "");
      ReplaceAbsent(x, "-Strategy", "");
    }
    assert VideoBasename(path) == x;
  }
}
