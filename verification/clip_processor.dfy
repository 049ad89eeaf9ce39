/** `process_clip`: skip a clip whose vertical render already exists with
    a plausible size, otherwise cut the clip out of the source video and
    render it vertically with the title and wrapped commentary burnt in. */
module ClipProcessor {
  import opened Wrappers
  import opened Paths
  import opened Layout
  import opened FilterGraph
  import opened Executor

  /** One entry of the strategy document's `clips` list. */
  datatype Clip = Clip(id: string, start: string, end: string, title: string, commentary: string)

  /** File sizes of the paths that exist, as seen when the clip starts. */
  type Sizes = map<string, nat>

  /** `FONT_PATH`. */
  const FontPath := "/System/Library/Fonts/STHeiti Medium.ttc"

  /** A render smaller than this is taken to be a leftover of a failed run. */
  const MinFinalSize: nat := 1000

  function RawPath(temp: string, id: string): string {
    Join(temp, id + "_raw.mp4")
  }

  function FinalPath(temp: string, id: string): string {
    Join(temp, id + "_vertical.mp4")
  }

  predicate ShouldSkip(sizes: Sizes, path: string) {
    path in sizes && sizes[path] > MinFinalSize
  }

  /** The argument vector of the cutting step. */
  function ExtractCommand(clip: Clip, video: string, raw: string): seq<string> {
    ["ffmpeg", "-ss", clip.start, "-to", clip.end, "-i", video,
     "-c:v", "libx264", "-c:a", "aac", "-y", raw]
  }

  /** The argument vector of the rendering step. */
  function ConvertCommand(raw: string, filterComplex: string, final: string): seq<string> {
    ["ffmpeg", "-i", raw, "-filter_complex", filterComplex,
     "-map", "[outv]", "-map", "0:a",
     "-c:v", "libx264", "-c:a", "aac", "-y", final]
  }

  /** What processing one clip returns, the commands it handed to
      `run_cmd` in order, and how many launches those took. */
  datatype ClipRun = ClipRun(result: Option<string>, commands: seq<seq<string>>, launches: nat)

  /** `process_clip` with its first launch numbered `pos`. */
  function ProcessClip(script: Script, pos: nat, sizes: Sizes, clip: Clip, video: string, temp: string, font: string): (r: ClipRun)
    ensures r.result.Some? ==> r.result.value == FinalPath(temp, clip.id)
    ensures r.launches <= 2 * MaxRetries
  {
    var raw, final := RawPath(temp, clip.id), FinalPath(temp, clip.id);
    if ShouldSkip(sizes, final) then ClipRun(Some(final), [], 0)
    else
      var extract := ExtractCommand(clip, video, raw);
      var cut := Run(script, pos);
      if !cut.ok then ClipRun(None, [extract], cut.attempts)
      else
        var convert := ConvertCommand(raw, FilterComplex(font, clip.title, WrapCommentary(clip.commentary)), final);
        var render := Run(script, pos + cut.attempts);
        ClipRun(if render.ok then Some(final) else None, [extract, convert], cut.attempts + render.attempts)
  }

  /** An existing render of more than 1000 bytes is returned as it is, and
      nothing is launched. */
  lemma SkipIssuesNothing(script: Script, pos: nat, sizes: Sizes, clip: Clip, video: string, temp: string, font: string)
    requires ShouldSkip(sizes, FinalPath(temp, clip.id))
    ensures ProcessClip(script, pos, sizes, clip, video, temp, font) == ClipRun(Some(FinalPath(temp, clip.id)), [], 0)
  {
  }

  /** Otherwise the cut runs first; the render runs only after a successful
      cut; the clip succeeds exactly when both steps do. */
  lemma FreshClipSteps(script: Script, pos: nat, sizes: Sizes, clip: Clip, video: string, temp: string, font: string)
    requires !ShouldSkip(sizes, FinalPath(temp, clip.id))
    ensures var r := ProcessClip(script, pos, sizes, clip, video, temp, font);
      && 1 <= |r.commands| <= 2
      && r.commands[0] == ExtractCommand(clip, video, RawPath(temp, clip.id))
      && (|r.commands| == 2 <==> Run(script, pos).ok)
      && 1 <= r.launches
      && (r.result.Some? <==> Run(script, pos).ok && Run(script, pos + Run(script, pos).attempts).ok)
  {
    RunFromSpec(script, pos, 0);
  }

  /** The render reads the file the cut wrote, draws the clip's title and
      wrapped commentary, and writes the clip's final path. */
  lemma RenderWiring(script: Script, pos: nat, sizes: Sizes, clip: Clip, video: string, temp: string, font: string)
    ensures var r := ProcessClip(script, pos, sizes, clip, video, temp, font);
      |r.commands| == 2 ==>
        && |r.commands[0]| == 13 && |r.commands[1]| == 15
        && r.commands[1][2] == r.commands[0][12] == RawPath(temp, clip.id)
        && r.commands[1][4] == FilterComplex(font, clip.title, WrapCommentary(clip.commentary))
        && r.commands[1][14] == FinalPath(temp, clip.id)
  {
    var r := ProcessClip(script, pos, sizes, clip, video, temp, font);
    if |r.commands| == 2 {
      var raw, final := RawPath(temp, clip.id), FinalPath(temp, clip.id);
      var fc := FilterComplex(font, clip.title, WrapCommentary(clip.commentary));
      assert r.commands == [ExtractCommand(clip, video, raw), ConvertCommand(raw, fc, final)];
      CommandShapes(clip, video, raw, fc, final);
    }
  }

  lemma CommandShapes(clip: Clip, video: string, raw: string, fc: string, final: string)
    ensures var e := ExtractCommand(clip, video, raw); |e| == 13 && e[12] == raw
    ensures var c := ConvertCommand(raw, fc, final); |c| == 15 && c[2] == raw && c[4] == fc && c[14] == final
  {
  }

  /** The cut and the render never write the same file. */
  lemma RawIsNotFinal(temp: string, id: string)
    ensures RawPath(temp, id) != FinalPath(temp, id)
  {
  }

  /** Distinct clip ids not starting with `/` give distinct vertical path
      strings. Two such strings may still name one file (`a` and `./a`). */
  lemma FinalPathInjective(temp: string, id1: string, id2: string)
    requires id1 != id2
    requires id1 == [] || id1[0] != '/'
    requires id2 == [] || id2[0] != '/'
    ensures FinalPath(temp, id1) != FinalPath(temp, id2)
  {
    var sfx := "_vertical.mp4";
    var b1, b2 := id1 + sfx, id2 + sfx;
    assert b1[0] != '/' && b2[0] != '/';
    if |id1| != |id2| {
      assert |b1| != |b2|;
    } else {
      assert b1[..|id1|] == id1 && b2[..|id2|] == id2;
    }
    JoinRelativeInjective(temp, b1, b2);
  }
}
