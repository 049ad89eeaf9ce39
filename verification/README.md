# A verified model of the yyy-grandma clip-production scripts

The repository turns a long episode into a vertical short video. A JSON
strategy document lists clips, each with a time range, a title and a
commentary. `produce_short_video.py` does the following for each clip:

- cuts the clip with ffmpeg;
- turns it into a 1080×1920 frame with a blurred background;
- draws the title and the commentary, wrapped by hand, with `drawtext`;
- concatenates the clips that succeeded into `<name>-Clip.mp4`.

Each external command goes through `run_cmd`, which makes at most three
attempts. Clips whose vertical file already exists are skipped, so a run
can resume.

Four neighbouring scripts are part of the model:

- `extract_subs.py` writes Whisper segments as a SubRip (`.srt`) file.
- `fix_subs.py` rewrites the subtitle text lines with a corrections map.
- `publish.py` checks the strategy file name, finds the produced video and
  composes the title and description.
- `check_duration.py` compares each `.mp4` with its `.wav`/`.mp3` audio
  track.

The model is functional Dafny with one module per concern:

| module | file | models |
|---|---|---|
| `Wrappers` | wrappers.dfy | `Option`, `Result` |
| `Text` | text.dfy | Python's `str.replace`, `strip`, `split`, `readlines`, `isdigit`, `endswith`, `"".join` |
| `Numerals` | numerals.dfy | `str(n)`, `f"{n:02d}"`, and decimal digits read back |
| `Paths` | paths.dfy | `os.path.join`, `basename`, `splitext` on POSIX paths |
| `Ordering` | ordering.dfy | code-point order on strings and `sorted` |
| `Executor` | executor.dfy | `run_cmd` |
| `Escape` | escape.dfy | `escape_text`, and a one-level decoder for the escapes it writes |
| `Layout` | layout.dfy | the commentary wrapper |
| `FilterGraph` | filter_graph.dfy | the `drawtext` chain and the `filter_complex` graph |
| `ClipProcessor` | clip_processor.dfy | `process_clip` |
| `Pipeline` | pipeline.dfy | the clip loop in `main`, `merge_final`, and the output name |
| `SubRip` | subrip.dfy | `format_timestamp`, the SRT writer and an SRT reader |
| `SubtitleFix` | subtitle_fix.dfy | `fix_subtitle_text`, `process_srt`, and the directory filter |
| `Publish` | publish.dfy | the checks and the plan that `publish.py` builds before automation |
| `DurationCheck` | duration_check.dfy | `format_time` and `check_directory` |

The model has no effects of its own. The outside world enters as
parameters:

- **Command outcomes.** Every launched command has an outcome: exit code 0,
  a non-zero exit code, or an exception. A `Script` maps the global launch
  number to that outcome. Each call of `run_cmd` consumes as many launches
  as it makes attempts.
- **Existing files.** A `Sizes` map gives the existing files and their
  sizes. A `present` predicate gives existence.
- **Durations.** A `duration` oracle stands in for `ffprobe` and returns
  exact reals.
- **Absolute paths.** An `abspath` function stands in for
  `os.path.abspath`.
- **Directory listings.** A listing is a sequence of names.

Commentary widths are counted in half-units: 1 for a code point up to 127,
2 above. The limit of 18 characters becomes 36 half-units. Subtitle times
are whole microseconds.

## Model

| member | source | states |
|---|---|---|
| Executor.RunFromSpec | scripts/produce_short_video.py:11-27 | From any attempt number below three, the retry loop makes between one and three attempts. Every attempt before the last failed. It succeeds exactly when the last launch exited 0. A failure means the last launch raised, or three launches all failed. One sleep follows each non-zero exit. |
| Executor.RunCmd | scripts/produce_short_video.py:11-27 | The imperative retry loop makes 1–3 attempts. It returns true iff the last attempt exited 0, and every earlier attempt failed. A false result comes from an exception or from three failures. Its sleep count is one per non-zero exit. It agrees with the functional `Run`. |
| Executor.SucceedsOnThirdAttempt | scripts/produce_short_video.py:13-22 | Two non-zero exits followed by exit 0 give success after three attempts and two sleeps. |
| Executor.GivesUpAfterThree | scripts/produce_short_video.py:13-27 | Three failing launches give false after exactly three attempts and three sleeps. |
| Executor.RaiseStopsAtOnce | scripts/produce_short_video.py:23-25 | An exception on the first launch returns false after one attempt, with no sleep and no retry. |
| ClipProcessor.ProcessClip | scripts/produce_short_video.py:29-134 | A clip either yields nothing or yields exactly `<temp>/<id>_vertical.mp4`. It makes at most six launches: two commands of at most three attempts each. |
| ClipProcessor.SkipIssuesNothing | scripts/produce_short_video.py:36-42 | When the vertical file exists and is larger than 1000 bytes, the clip returns that path with no command and no launch. |
| ClipProcessor.FreshClipSteps | scripts/produce_short_video.py:46-51 | Otherwise the extract command runs first. The convert command follows iff extraction succeeded. The clip yields a path iff both commands succeeded. |
| ClipProcessor.RenderWiring | scripts/produce_short_video.py:117-134 | When the convert command runs, it reads the raw file that extraction wrote. Its `-filter_complex` argument is the graph built from the title and the wrapped commentary. It writes the vertical file. |
| ClipProcessor.CommandShapes | scripts/produce_short_video.py:47-50 | The extract command has 13 arguments and ends with the raw path. The convert command has 15 arguments: the raw input at 2, the graph at 4 and the output at 14. |
| ClipProcessor.RawIsNotFinal | scripts/produce_short_video.py:36-37 | The raw path and the vertical path of a clip never coincide. |
| ClipProcessor.FinalPathInjective | scripts/produce_short_video.py:37 | Distinct clip ids not starting with `/` get distinct vertical path strings. |
| Escape.EscapeTextIsEscapeEach | scripts/produce_short_video.py:54-60 | The three whole-string replacements, applied in order (backslash, colon, quote), equal escaping each character on its own: `\` becomes `\\`, `:` becomes `\:`, and `'` becomes `'\''`. The inserted escapes are never doubled again. |
| Escape.EscapePlain | scripts/produce_short_video.py:54-60 | A text with no backslash, colon or quote is left as it is. |
| Escape.UnescapeEscapeText | scripts/produce_short_video.py:54-60 | The model's one-level decoder, which reads exactly the three escapes written, gives back the original text. |
| Escape.EscapeInjective | scripts/produce_short_video.py:54-60 | Different texts never escape to the same string. |
| Escape.ColonFirstCorrupts | scripts/produce_short_video.py:56-59 | Doing the colon before the backslash would double the inserted backslash and decode `:` wrongly. The order in the code is therefore necessary. |
| Escape.QuoteFirstCorrupts | scripts/produce_short_video.py:56-59 | Doing the quote before the backslash would double the backslash inside `'\''`, and `'` would no longer decode. |
| Layout.WrapLineSound | scripts/produce_short_video.py:71-85 | Wrapping one source line gives pieces that are non-empty and at most 18 characters (36 half-units) wide. The wrap is greedy: each flushed piece plus the next character would exceed the limit. The pieces concatenate back to the line. An empty line gives no piece. No piece contains a newline. |
| Layout.WrapAscii | scripts/produce_short_video.py:74-83 | An ASCII-only line is cut into consecutive 36-character chunks. |
| Layout.WrapWide | scripts/produce_short_video.py:74-83 | A line of only non-ASCII characters is cut into consecutive 18-character chunks. |
| Layout.AsciiBoundary | scripts/produce_short_video.py:76-83 | 36 ASCII characters fit on one line. 37 give a line of 36 and a line of 1. |
| Layout.WideBoundary | scripts/produce_short_video.py:76-83 | 20 CJK characters give a line of 18 and a line of 2. |
| Layout.WrapCommentarySound | scripts/produce_short_video.py:69-85 | Every wrapped line of the whole commentary is non-empty, at most 36 half-units wide and free of newlines. |
| Layout.CommentaryRecovered | scripts/produce_short_video.py:70-85 | Concatenate the pieces of each source line, then join those lines with newlines: the result is the commentary, so wrapping loses no character. |
| Layout.WrapLineLoop | scripts/produce_short_video.py:72-85 | The inner character loop, with its buffer and half-unit count, produces the greedy wrap of the line. Its pieces are well wrapped and concatenate back to the line. |
| Layout.ProcessedLines | scripts/produce_short_video.py:69-85 | The nested loops produce the wrapping of every newline-separated line in order. Every produced line is non-empty, at most 36 half-units wide and free of newlines. |
| FilterGraph.DrawChainShape | scripts/produce_short_video.py:87-113 | The draw chain has one entry plus one per wrapped line. The first entry draws the title at y 350 in size 80. Entry i+1 draws line i at y 1400 + 80·i in size 55. |
| FilterGraph.TitleRendering | scripts/produce_short_video.py:90-96 | The title `drawtext` carries the escaped title and the fixed colour, size, position, border and shadow. The escaped title decodes back to the title. |
| FilterGraph.CommentaryRendering | scripts/produce_short_video.py:102-113 | The commentary `drawtext` for line i carries the escaped line at y = 1400 + 80·i, with border and shadow 3. The escaped line decodes back to the line. |
| FilterGraph.LabelInjective | scripts/produce_short_video.py:117-123 | Distinct pads of the graph carry distinct labels. |
| FilterGraph.FilterComplexText | scripts/produce_short_video.py:115-123 | The filter graph is the fixed split/blur/scale/overlay prefix, then `[merged]`, the comma-joined draw chain and `[outv]`. |
| FilterGraph.GraphWellFormed | scripts/produce_short_video.py:117-128 | In the graph, every pad is produced once and every input is produced by an earlier filter or is `[0:v]`. Every produced pad is consumed except `[outv]`, which the convert command maps. |
| FilterGraph.GraphOutputs | scripts/produce_short_video.py:117-123 | The filters produce `bg`, `main`, `bg_blurred`, `main_scaled`, `merged` and `outv`, in that order. |
| Pipeline.ProcessClips | scripts/produce_short_video.py:220-225 | Clips are processed in document order. There is one result per clip, and every result present is that clip's vertical path. |
| Pipeline.AllSkippedIsQuiet | scripts/produce_short_video.py:36-42 | When every clip is already produced, the run issues no command. Every clip returns its vertical path. |
| Pipeline.SuccessfulInOrder | scripts/produce_short_video.py:220-225 | The merged list is exactly the present results, taken in strictly increasing clip order. |
| Pipeline.SuccessIndicesComplete | scripts/produce_short_video.py:224-225 | Every clip that yielded a path is in the merged list. |
| Pipeline.SuccessIndicesIncreasing | scripts/produce_short_video.py:222-225 | The merged list keeps document order. |
| Pipeline.NothingSuccessful | scripts/produce_short_video.py:227-230 | The merged list is empty iff no clip yielded a path. |
| Pipeline.ManifestReadsBack | scripts/produce_short_video.py:137-141 | Reading the manifest back line by line gives the normalised absolute paths of the clips, in order. |
| Pipeline.Produce | scripts/produce_short_video.py:136-149 | A manifest is written iff a merge command is issued. The merge command has 11 arguments: `<temp>/merge_list.txt` as input and `<output>/<final name>` as output. |
| Pipeline.ProduceMerges | scripts/produce_short_video.py:220-230 | No merge happens iff no clip succeeded. When a merge happens and no successful clip's absolute path holds a newline, the manifest lists the successful clips in document order. |
| Pipeline.StemOfConfigPath | scripts/produce_short_video.py:187 | The stem of `<dir>/<stem>.json` is `<stem>`, for a stem that has no slash and is not all dots. |
| Pipeline.StrategyNaming | scripts/produce_short_video.py:186-192 | For `<dir>/X-Strategy.json` where X has no other `-Strategy`, the video base name is X, the source video looked up is `X.mp4` in the downloads directory, and the output file is `X-Clip.mp4`. |
| SubRip.ClockOf | scripts/extract_subs.py:7-13 | Minutes and seconds are below 60 and milliseconds below 1000. Hours·3600 + minutes·60 + seconds is the whole number of seconds. Adding the milliseconds gives the whole number of milliseconds. |
| SubRip.ParseFormat | scripts/extract_subs.py:7-14 | Reading a formatted `HH:MM:SS,mmm` timestamp back gives the input truncated to milliseconds. |
| SubRip.TimestampWidth | scripts/extract_subs.py:14 | Below 100 hours, a timestamp is exactly 12 characters. |
| SubRip.TimestampChars | scripts/extract_subs.py:14 | A timestamp is made of digits, `:` and `,`, and begins and ends with a digit. |
| SubRip.ParseTimingLine | scripts/extract_subs.py:38-42 | The timing line `start --> end` reads back as both times, truncated to milliseconds. |
| SubRip.ExpectedCuesAt | scripts/extract_subs.py:37-43 | Block i carries index i+1, the two truncated times and the stripped text of segment i. |
| SubRip.SrtRoundTrip | scripts/extract_subs.py:37-43 | When no stripped text holds a newline, parsing the written document gives back one cue per segment, in segment order. Each cue has its index, its times and its text. |
| SubRip.SplitBlock | scripts/extract_subs.py:41-43 | A written block is four lines (index, timing, text, blank), followed by what comes after it. |
| SubtitleFix.FixTextAppend | scripts/fix_subs.py:27-28 | Corrections apply one after another: applying a list split in two parts is applying the first part, then the second. |
| SubtitleFix.FixTextNoCorrections | scripts/fix_subs.py:21-46 | With no correction, the text is unchanged, since no fuzzy step runs. |
| SubtitleFix.FixTextIdentityMap | scripts/fix_subs.py:27-28 | Corrections that map a word to itself leave every text unchanged. |
| SubtitleFix.FixTextUntouched | scripts/fix_subs.py:27-28 | A text that contains none of the wrong forms is unchanged. |
| SubtitleFix.FixTextOrderMatters | scripts/fix_subs.py:27-28 | Map order matters: `a→b, b→c` turns `a` into `c`, and `b→c, a→b` turns it into `b`. |
| SubtitleFix.FixLineShape | scripts/fix_subs.py:60-66 | A text line keeps its surrounding whitespace and newline, and its stripped content is corrected. Any other line is copied unchanged. |
| SubtitleFix.FixOne | scripts/fix_subs.py:60-69 | One step of the loop outputs the fixed line. It counts the line iff the line is a text line whose correction differs. An uncounted line is output unchanged. |
| SubtitleFix.FixLines | scripts/fix_subs.py:57-69 | The output has as many lines as the input. Non-text lines are unchanged. Text lines are the leading whitespace, then the corrected stripped text, then the trailing whitespace. The count is the number of changed text lines, which is at most the number of text lines. |
| SubtitleFix.FixAllLines | scripts/fix_subs.py:57-69 | Line i of the output is line i of the input, fixed on its own. |
| SubtitleFix.CountChanged | scripts/fix_subs.py:62-66 | At most as many lines are counted as fixed as there are text lines. |
| SubtitleFix.TextLineClassified | scripts/fix_subs.py:60-61 | A line is a text line iff its stripped form is non-empty, not all digits and free of `-->`. |
| SubtitleFix.BlockClassification | scripts/fix_subs.py:60-61 | In a block written by the SRT writer, the index, timing and blank lines are never text lines. The text line is a text line iff it is non-empty, not all digits and free of `-->`. |
| SubtitleFix.BlockLines | scripts/fix_subs.py:52 | Reading the lines of a written block gives its four newline-terminated lines. |
| SubtitleFix.OutputPathOfSrt | scripts/fix_subs.py:71 | For `X.srt` with no other `.srt` in X, the output is `X_fixed.srt`. |
| SubtitleFix.OutputNotReselected | scripts/fix_subs.py:97-101 | The output file `X_fixed.srt` of such a name is skipped by the directory walk. |
| SubtitleFix.OutputPathRewritesDirectories | scripts/fix_subs.py:71 | The replacement rewrites every `.srt`, including one in a directory name. `c.srt/d.srt` becomes `c_fixed.srt/d_fixed.srt`. |
| Text.LinesConcat | scripts/fix_subs.py:52 | The lines read concatenate back to the text read, after newline translation. |
| Text.LinesShaped | scripts/fix_subs.py:52 | Every line read is non-empty. Each line ends in its only newline, except possibly the last, which has none. |
| Text.ReplaceStripped | scripts/fix_subs.py:64-65 | Replacing a line's non-empty stripped content touches only that occurrence. The surrounding whitespace survives. |
| Text.JoinSplit | scripts/produce_short_video.py:70 | Splitting on a character and joining with it gives back the string. |
| Text.SplitJoin | scripts/publish.py:76 | Joining parts that do not contain the separator and splitting again gives back the parts. |
| Publish.Checks | scripts/publish.py:20-53 | The checks pass iff four things hold: the strategy file exists, the `output` directory beside its parent exists, its name ends in `-Strategy.json`, and the derived video exists. The checks run in that order, and an error names a check whose predecessors all passed. |
| Publish.ReadPlan | scripts/publish.py:58-97 | A plan publishes the given video. Its title and description have a length, and it warns iff the title's length is over 30. A failure is a read error, a missing `wechat` block, or the uncaught error of `len(full_description)`. |
| Publish.TextFieldsPlan | scripts/publish.py:68-85 | With a string title and description and joinable hashtags, the plan carries the title as given and the description composed with the tags. It warns iff the title is over 30 characters. |
| Publish.UnsizedTitleAborts | scripts/publish.py:84-89 | A title that is a number, a boolean or null makes `len` raise. The handler reports it, and nothing is published. |
| Publish.TagsNeedTextDescription | scripts/publish.py:74-89 | With hashtags present, a description that is an object, a number, a boolean or null makes the `+=` raise. The handler reports it, and nothing is published. |
| Publish.ListDescriptionExtended | scripts/publish.py:74-97 | With hashtags present, a list description is extended in place, as `list += str` does, and the post is prepared. The list keeps its items and gains one one-character string per character of the blank line and the joined tags. For a list of strings, running them together gives the description the string case would compose. |
| Publish.UnsizedDescriptionCrashes | scripts/publish.py:74-97 | Without hashtags, a number, boolean or null description passes the handler but makes `len(full_description)` raise outside it. |
| Publish.HashtagsTruthy | scripts/publish.py:70-76 | When joining does not raise, a `hashtags` value contributes pieces iff it is truthy. |
| Publish.Prepare | scripts/publish.py:20-97 | A plan exists only when every check passed. It then publishes the video derived from the strategy name, and warns iff the title's length is over 30. |
| Publish.BadNameRejected | scripts/publish.py:41-44 | A strategy name not ending in `-Strategy.json` is rejected before the document is read. |
| Publish.WechatRequired | scripts/publish.py:62-66 | When the checks pass, a missing or empty `wechat` block aborts. |
| Publish.TitleOnlyWarns | scripts/publish.py:84-85 | Changing only a string title never changes whether a plan is made, nor its video or description. A long title only warns. |
| Publish.FullDescription | scripts/publish.py:74-76 | The description is kept as a prefix. The result equals the description iff there are no hashtags. |
| Publish.DescriptionRecoversTags | scripts/publish.py:74-76 | With hashtags, the result is the description, a blank line, and then the tags, which splitting on spaces gives back. |
| Publish.ClipOfSuffixed | scripts/publish.py:46-47 | `X-Strategy.json` names the video `X-Clip.mp4` when X does not contain the suffix. |
| Publish.NamesAgree | scripts/publish.py:41-47 | For `X-Strategy.json` with no other `-Strategy` in X, the publisher looks for the same `X-Clip.mp4` that the producer writes. |
| Publish.NamesDiverge | scripts/publish.py:46 | When X contains another `-Strategy`, the two scripts disagree. The publisher removes only the suffix, but the producer removes every `-Strategy`. |
| DurationCheck.MinutesSeconds | scripts/check_duration.py:26-30 | The seconds are below 60. Minutes·60 + seconds is the whole part of the duration. |
| DurationCheck.MinutesSecondsUnique | scripts/check_duration.py:28-29 | That split into minutes and seconds is the only one. |
| DurationCheck.FormatTimeFields | scripts/check_duration.py:30 | The text is the minutes, a colon, and exactly two digits whose value is the seconds. |
| DurationCheck.Mp4FilesMembers | scripts/check_duration.py:43 | A listed name is visited iff it ends in `.mp4` in any letter case. |
| DurationCheck.ListingOrderIrrelevant | scripts/check_duration.py:43 | Visiting is in sorted order, so the order of the listing does not matter. |
| DurationCheck.RowOfSound | scripts/check_duration.py:47-80 | A row is produced iff the `.wav` or the `.mp3` exists. The `.wav` is chosen whenever it exists. The durations come from the video and the chosen track. The row is ok iff they differ by at most one second. |
| DurationCheck.VisitFile | scripts/check_duration.py:47-77 | One loop step produces the row for a file, with the audio chosen and classified as above. |
| DurationCheck.NoMismatches | scripts/check_duration.py:79-86 | No issue is reported iff every row is ok. |
| DurationCheck.CheckDirectory | scripts/check_duration.py:32-80 | A missing directory gives no report. Otherwise there is one row per `.mp4` with audio, in sorted order, each row sound, and the issue count is the number of rows more than a second apart. |

## Left out

- Printing, `time.sleep`, stderr capture and process exit codes. The model counts sleeps and records commands but writes nothing.
- The argument handling in `main` of `produce_short_video.py`. Also left out: the directory-structure inference and the fallback to `.mkv`/`.avi`/`.mov` (lines 156-218), and directory creation. These probe the filesystem. The model takes the video, temp and output paths as parameters.
- Loading JSON: the strategy document, Whisper's transcription result (`extract_subs.py:25-30`) and the entities file (`fix_subs.py:7-19`). The fuzzy entity step is commented out and never runs.
- `extract_subs.py`: the non-SRT branch, the directory loop and the model loading (lines 44-88).
- The `publish.py` browser automation after the plan is built (lines 91-127, apart from `len(full_description)` at line 97), and `pinned_comment`, which is read but never used. A list or object title or description is handed on as it is, and what the publisher does with it is not modelled.
- `wx_channel.py`, `download.py`, `convert_t2s.py` and `extract_audio.py`: browser automation, network downloads, a foreign conversion library and ffmpeg plumbing.
- `get_duration` (ffprobe) is the `duration` oracle. Its fallback to 0.0 on error is whatever the oracle returns.
- Escape.UnescapeEscapeText: the round trip is through the model's one-level decoder. ffmpeg unescapes a filter graph in several levels (graph, option, then `drawtext`'s own `\` and `%` expansion), and that is not modelled. It may not invert `escape_text` for quotes, backslashes or `%`.
- Pipeline.ManifestReadsBack: the round trip is through the model's reader, which takes the path verbatim between the quotes. The concat demuxer's own quoting rules are not modelled, so a `'` in a path is not covered. The lemma also requires that no path contains a newline: the source writes such a path unescaped, and the manifest would break.
- Pipeline.ProduceMerges: the manifest half requires the same of the absolute paths of the clips that succeeded, and of no other path. The no-merge half holds without it.
- Unicode: `str.isdigit` accepts non-ASCII digits, but the model accepts ASCII digits only. `str.lower` is modelled on ASCII letters only.
- `format_timestamp` takes float seconds, and `timedelta` rounds them to microseconds. The model starts from a whole number of microseconds. `check_duration.py` works on floats, and the model uses exact reals.
- `os.path.abspath` and `Path.resolve()` are parameters, and the model does not normalise paths itself. File existence and sizes are a snapshot taken before the run.
- `os.walk` order and recursion in `fix_subs.py`. Only the per-name filter (line 100) is modelled.
- Newline translation: `open(..., 'r')` in `fix_subs.py` turns `\r\n` and lone `\r` into `\n`, and writing back emits `\n`. The model starts from the translated text, so it does not promise a file with other line ends is copied byte for byte.
- Publish.NamesDiverge: states the disagreement for one concrete shape of name, two single-character stems around an inner `-Strategy`, rather than for all names.
- SubtitleFix.OutputPathRewritesDirectories: states the directory rewrite for single-character names only.
- SubRip.SrtRoundTrip: assumes no stripped segment text contains a newline. Whisper can in principle emit one, and such a text would split a block.
