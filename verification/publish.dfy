/** `publish.py` up to the hand-over to the browser automation: locate the
    rendered clip from the strategy file's name, read the `wechat` block of
    the strategy document and compose the post. The filesystem is an
    existence oracle and the parsed document is an input. */
module Publish {
  import opened Text
  import opened Wrappers
  import opened Paths
  import Pipeline

  /** The only strategy file names accepted. */
  const StrategySuffix := "-Strategy.json"

  /** Titles longer than this are reported, not refused. */
  const TitleLimit: nat := 30

  /** A JSON value inside the `wechat` block, as far as the script can
      tell values apart: a string, an array, an object (its keys, each
      once, in document order), or a number, boolean or null, of which
      only its truthiness shows. */
  datatype Field = Str(s: string) | Arr(items: seq<Field>) | Obj(keys: seq<string>) | Atom(truthy: bool)

  /** The `wechat` value: an object, or a value of another JSON type. */
  datatype Block = Fields(fields: map<string, Field>) | Scalar(truthy: bool)

  /** The strategy document: not loadable as a JSON object, or an object
      with or without a `wechat` key. */
  datatype Document = Unreadable | Object(wechat: Option<Block>)

  /** Why the script stops, in the order it checks. `ReadError` is an
      exception caught by the handler around the reading of the document;
      `Crashed` is the one raised by `len(full_description)`, which no
      handler catches. */
  datatype Error = StrategyMissing | OutputDirMissing | BadStrategyName | VideoMissing | ReadError | WechatMissing | Crashed

  /** `VideoPublishTask`: the title and the description are passed on
      whatever JSON value they are. */
  datatype Task = Task(videoPath: string, title: Field, description: Field)

  /** The task handed to the publisher, and whether the title warning is
      printed first. */
  datatype Plan = Plan(task: Task, titleWarning: bool)

  /** `PurePosixPath(p).parent` of a resolved path: everything before the
      last `/`, the root staying the root. */
  function Parent(p: string): (r: string)
    ensures |r| <= |p| || r == "."
  {
    var k := LastIndexOf(p, '/');
    if k < 0 then "." else if k == 0 then "/" else p[..k]
  }

  /** `series_root / "output"`, two levels above the strategy file. */
  function OutputDir(strategy: string): string {
    Join(Parent(Parent(strategy)), "output")
  }

  /** `video_filename`: every `-Strategy.json` removed, `-Clip.mp4` added. */
  function ClipFilename(name: string): string {
    Replace(name, StrategySuffix, "") + "-Clip.mp4"
  }

  function VideoPath(strategy: string): string {
    Join(OutputDir(strategy), ClipFilename(Basename(strategy)))
  }

  /** `wechat.get(key, default)`. */
  function Get(fields: map<string, Field>, key: string, default: Field): Field {
    if key in fields then fields[key] else default
  }

  /** Python's `len`: `None` where it raises, for numbers, booleans and
      null. */
  function Len(f: Field): Option<nat> {
    match f
    case Str(s) => Some(|s|)
    case Arr(items) => Some(|items|)
    case Obj(keys) => Some(|keys|)
    case Atom(_) => None
  }

  /** Python's truthiness of a JSON value. */
  predicate Truthy(f: Field) {
    match f
    case Atom(t) => t
    case _ => Len(f).Some? && Len(f).value > 0
  }

  /** The characters of a string, which is what `join` iterates over. */
  function Chars(s: string): (r: seq<string>)
    ensures |r| == |s|
    ensures forall i :: 0 <= i < |s| ==> r[i] == [s[i]]
  {
    seq(|s|, i requires 0 <= i < |s| => [s[i]])
  }

  /** What `" ".join(v)` iterates over: the characters of a string, the
      items of an array of strings, the keys of an object; `None` when it
      raises, for an array holding a non-string or a value that is not
      iterable. */
  function JoinPieces(f: Field): (r: Option<seq<string>>)
    ensures r.Some? ==> Len(f).Some? && |r.value| == Len(f).value
  {
    match f
    case Str(s) => Some(Chars(s))
    case Arr(items) =>
      if forall i :: 0 <= i < |items| ==> items[i].Str? then
        Some(seq(|items|, i requires 0 <= i < |items| => items[i].s))
      else None
    case Obj(keys) => Some(keys)
    case Atom(_) => None
  }

  /** The hashtags as `if hashtags: ... " ".join(hashtags)` uses them: no
      piece for a falsy value, otherwise the joined pieces, or `None` when
      joining raises. */
  function Hashtags(f: Field): Option<seq<string>> {
    if !Truthy(f) then Some([]) else JoinPieces(f)
  }

  /** A value contributes hashtags exactly when it is truthy. */
  lemma HashtagsTruthy(f: Field)
    requires Hashtags(f).Some?
    ensures |Hashtags(f).value| > 0 <==> Truthy(f)
  {
  }

  /** `full_description`: the description, then a blank line and the
      space-separated hashtags when there are any. */
  function FullDescription(description: string, tags: seq<string>): (r: string)
    ensures description <= r
    ensures |tags| == 0 <==> r == description
  {
    if |tags| == 0 then description
    else
      var r := description + "\n\n" + JoinWith(tags, " ");
      assert r[|description|] == '\n';
      r
  }

  /** A string as the one-character strings `list.extend` appends. */
  function CharFields(s: string): (r: seq<Field>)
    ensures |r| == |s|
    ensures forall i :: 0 <= i < |s| ==> r[i] == Str([s[i]])
  {
    seq(|s|, i requires 0 <= i < |s| => Str([s[i]]))
  }

  /** The hashtag tail appended to the description: a blank line, then
      the tags separated by spaces. */
  function TagTail(tags: seq<string>): string {
    "\n\n" + JoinWith(tags, " ")
  }

  /** The full description composed from any JSON values: the
      description itself when there is no hashtag; with hashtags, the
      composed string for a string description, the array extended by the
      tail's characters for an array (`list += str` is `list.extend`), and
      `None` when joining raises or the description is an object, a
      number, a boolean or null, which cannot be added to a string. */
  function Compose(description: Field, hashtags: Field): (r: Option<Field>)
    ensures r.Some? && !Truthy(hashtags) ==> r.value == description
    ensures r.Some? && Truthy(hashtags) ==>
      || (description.Str? && r.value.Str? && description.s < r.value.s)
      || (description.Arr? && r.value.Arr? && description.items < r.value.items)
    ensures r.None? <==>
      || Hashtags(hashtags).None?
      || (Truthy(hashtags) && (description.Obj? || description.Atom?))
  {
    match Hashtags(hashtags)
    case None => None
    case Some(tags) =>
      if |tags| == 0 then Some(description)
      else
        match description
        case Str(d) => Some(Str(FullDescription(d, tags)))
        case Arr(items) => Some(Arr(items + CharFields(TagTail(tags))))
        case _ => None
  }

  /** The checks of `main` before the document is opened, in order: the
      first that fails. */
  function Checks(strategy: string, present: string -> bool): (r: Option<Error>)
    ensures r.None? <==>
      && present(strategy) && present(OutputDir(strategy))
      && EndsWith(Basename(strategy), StrategySuffix) && present(VideoPath(strategy))
    ensures r.Some? ==> r.value in {StrategyMissing, OutputDirMissing, BadStrategyName, VideoMissing}
    ensures r == Some(OutputDirMissing) ==> present(strategy)
    ensures r == Some(BadStrategyName) ==> present(strategy) && present(OutputDir(strategy))
    ensures r == Some(VideoMissing) ==> present(strategy) && present(OutputDir(strategy)) && EndsWith(Basename(strategy), StrategySuffix)
  {
    if !present(strategy) then Some(StrategyMissing)
    else if !present(OutputDir(strategy)) then Some(OutputDirMissing)
    else if !EndsWith(Basename(strategy), StrategySuffix) then Some(BadStrategyName)
    else if !present(VideoPath(strategy)) then Some(VideoMissing)
    else None
  }

  /** Reading the `wechat` block and composing the task for `video`, up
      to `len(full_description)` before the publisher starts. */
  function ReadPlan(video: string, doc: Document): (r: Result<Plan, Error>)
    ensures r.Success? ==>
      && r.value.task.videoPath == video
      && Len(r.value.task.title).Some? && Len(r.value.task.description).Some?
      && (r.value.titleWarning <==> Len(r.value.task.title).value > TitleLimit)
    ensures r.Failure? ==> r.error in {ReadError, WechatMissing, Crashed}
  {
    match doc
    case Unreadable => Failure(ReadError)
    case Object(wechat) =>
      match wechat
      case None => Failure(WechatMissing)
      case Some(Scalar(truthy)) => Failure(if truthy then ReadError else WechatMissing)
      case Some(Fields(fields)) =>
        if |fields| == 0 then Failure(WechatMissing)
        else
          var title := Get(fields, "title", Str(""));
          var full := Compose(Get(fields, "description", Str("")), Get(fields, "hashtags", Arr([])));
          if full.None? || Len(title).None? then Failure(ReadError)
          else if Len(full.value).None? then Failure(Crashed)
          else Success(Plan(Task(video, title, full.value), Len(title).value > TitleLimit))
  }

  /** `main` up to the hand-over to the publisher. */
  function Prepare(strategy: string, present: string -> bool, doc: Document): (r: Result<Plan, Error>)
    ensures r.Success? ==>
      && present(strategy) && present(OutputDir(strategy)) && present(VideoPath(strategy))
      && EndsWith(Basename(strategy), StrategySuffix)
      && r.value.task.videoPath == VideoPath(strategy)
      && (r.value.titleWarning <==> Len(r.value.task.title).Some? && Len(r.value.task.title).value > TitleLimit)
  {
    match Checks(strategy, present)
    case Some(e) => Failure(e)
    case None => ReadPlan(VideoPath(strategy), doc)
  }

  /** With a string title, a string description and joinable hashtags,
      the post is prepared: the title as given, the description composed
      from the description and the hashtags, and the warning exactly for
      a title over the limit. */
  lemma TextFieldsPlan(video: string, fields: map<string, Field>)
    requires |fields| > 0
    requires Get(fields, "title", Str("")).Str? && Get(fields, "description", Str("")).Str?
    requires Hashtags(Get(fields, "hashtags", Arr([]))).Some?
    ensures var title, description := Get(fields, "title", Str("")).s, Get(fields, "description", Str("")).s;
      var tags := Hashtags(Get(fields, "hashtags", Arr([]))).value;
      ReadPlan(video, Object(Some(Fields(fields))))
        == Success(Plan(Task(video, Str(title), Str(FullDescription(description, tags))), |title| > TitleLimit))
  {
  }

  /** A title that is a number, a boolean or null makes `len(title)` raise;
      the handler reports a read error and nothing is published. */
  lemma UnsizedTitleAborts(video: string, fields: map<string, Field>)
    requires "title" in fields && fields["title"].Atom?
    ensures ReadPlan(video, Object(Some(Fields(fields)))) == Failure(ReadError)
  {
    assert |fields| > 0 by {
      assert "title" in fields.Keys;
    }
  }

  /** With hashtags present, a description that is an object, a number,
      a boolean or null cannot be added to a string: the handler reports
      the error and nothing is published. */
  lemma TagsNeedTextDescription(video: string, fields: map<string, Field>)
    requires "hashtags" in fields && Truthy(fields["hashtags"])
    requires var d := Get(fields, "description", Str("")); d.Obj? || d.Atom?
    ensures ReadPlan(video, Object(Some(Fields(fields)))) == Failure(ReadError)
  {
    assert |fields| > 0 by {
      assert "hashtags" in fields.Keys;
    }
  }

  /** The strings of an array of strings. */
  function Texts(items: seq<Field>): (r: seq<string>)
    requires forall i :: 0 <= i < |items| ==> items[i].Str?
    ensures |r| == |items| && forall i :: 0 <= i < |items| ==> r[i] == items[i].s
  {
    seq(|items|, i requires 0 <= i < |items| => items[i].s)
  }

  /** With hashtags present, an array description is extended in place:
      the post is prepared, its description keeps the array's items and
      then one-character strings, and, for an array of strings, those
      strings run together to the description the string case would
      give. */
  lemma ListDescriptionExtended(video: string, fields: map<string, Field>, items: seq<Field>)
    requires Get(fields, "description", Str("")) == Arr(items)
    requires "hashtags" in fields && Truthy(fields["hashtags"]) && Hashtags(fields["hashtags"]).Some?
    requires Len(Get(fields, "title", Str(""))).Some?
    ensures var r := ReadPlan(video, Object(Some(Fields(fields))));
      && r.Success?
      && r.value.task.description.Arr?
      && var out := r.value.task.description.items;
      && items < out
      && (forall i :: |items| <= i < |out| ==> out[i].Str? && |out[i].s| == 1)
      && ((forall i :: 0 <= i < |items| ==> items[i].Str?) ==>
            Concat(Texts(out)) == FullDescription(Concat(Texts(items)), Hashtags(fields["hashtags"]).value))
  {
    var tags := Hashtags(fields["hashtags"]).value;
    var title := Get(fields, "title", Str(""));
    var out := items + CharFields(TagTail(tags));
    assert ReadPlan(video, Object(Some(Fields(fields))))
        == Success(Plan(Task(video, title, Arr(out)), Len(title).value > TitleLimit)) by {
      assert |fields| > 0 by {
        assert "hashtags" in fields.Keys;
      }
      HashtagsTruthy(fields["hashtags"]);
      assert Compose(Arr(items), fields["hashtags"]) == Some(Arr(out));
    }
    if forall i :: 0 <= i < |items| ==> items[i].Str? {
      ExtendedTexts(items, TagTail(tags));
      HashtagsTruthy(fields["hashtags"]);
    }
  }

  /** The strings of an array of strings extended by a string's characters
      run together to the array's strings followed by that string. */
  lemma ExtendedTexts(items: seq<Field>, tail: string)
    requires forall i :: 0 <= i < |items| ==> items[i].Str?
    ensures Concat(Texts(items + CharFields(tail))) == Concat(Texts(items)) + tail
  {
    assert Texts(items + CharFields(tail)) == Texts(items) + Texts(CharFields(tail));
    ConcatAppend(Texts(items), Texts(CharFields(tail)));
    ConcatChars(tail);
  }

  /** Running the characters of a string together gives the string. */
  lemma {:induction false} ConcatChars(s: string)
    ensures Concat(Texts(CharFields(s))) == s
  {
    assert Texts(CharFields(s)) == Chars(s);
    ConcatOfChars(s);
  }

  lemma {:induction false} ConcatOfChars(s: string)
    ensures Concat(Chars(s)) == s
    decreases |s|
  {
    if |s| > 0 {
      assert Chars(s)[1..] == Chars(s[1..]);
      ConcatOfChars(s[1..]);
    }
  }

  /** Without hashtags, a description that is a number, a boolean or null
      passes the handler but makes `len(full_description)` raise. */
  lemma UnsizedDescriptionCrashes(video: string, fields: map<string, Field>)
    requires "description" in fields && fields["description"].Atom?
    requires !Truthy(Get(fields, "hashtags", Arr([])))
    requires Len(Get(fields, "title", Str(""))).Some?
    ensures ReadPlan(video, Object(Some(Fields(fields)))) == Failure(Crashed)
  {
    assert |fields| > 0 by {
      assert "description" in fields.Keys;
    }
  }

  /** A strategy file with the wrong name is refused before the clip is
      looked for and before the document is read. */
  lemma BadNameRejected(strategy: string, present: string -> bool, doc: Document, other: Document)
    requires !EndsWith(Basename(strategy), StrategySuffix)
    ensures var r := Prepare(strategy, present, doc);
      r.Failure? && r.error in {StrategyMissing, OutputDirMissing, BadStrategyName}
    ensures Prepare(strategy, present, doc) == Prepare(strategy, present, other)
  {
  }

  /** Without a `wechat` block, or with an empty one, nothing is published. */
  lemma WechatRequired(strategy: string, present: string -> bool)
    requires present(strategy) && present(OutputDir(strategy)) && present(VideoPath(strategy))
    requires EndsWith(Basename(strategy), StrategySuffix)
    ensures Prepare(strategy, present, Object(None)) == Failure(WechatMissing)
    ensures Prepare(strategy, present, Object(Some(Fields(map[])))) == Failure(WechatMissing)
  {
  }

  lemma TitleUpdate(fields: map<string, Field>, t: string)
    ensures var f := fields["title" := Str(t)];
      && |f| > 0 && Get(f, "title", Str("")) == Str(t)
      && Get(f, "hashtags", Arr([])) == Get(fields["title" := Str([])], "hashtags", Arr([]))
      && Get(f, "description", Str("")) == Get(fields["title" := Str([])], "description", Str(""))
  {
    var f := fields["title" := Str(t)];
    assert "title" in f;
  }

  lemma TitleOnlyWarnsRead(video: string, fields: map<string, Field>, t1: string, t2: string)
    ensures var r1 := ReadPlan(video, Object(Some(Fields(fields["title" := Str(t1)]))));
      var r2 := ReadPlan(video, Object(Some(Fields(fields["title" := Str(t2)]))));
      && (r1.Success? <==> r2.Success?)
      && (r1.Failure? ==> r1.error == r2.error)
      && (r1.Success? ==>
            && r1.value.task.title == Str(t1) && r2.value.task.title == Str(t2)
            && r1.value.task.description == r2.value.task.description)
  {
    TitleUpdate(fields, t1);
    TitleUpdate(fields, t2);
  }

  /** A string title's length never decides whether the post is prepared:
      two documents differing only in the title succeed or fail together,
      and their plans differ only in the title and the warning. */
  lemma TitleOnlyWarns(strategy: string, present: string -> bool, fields: map<string, Field>, t1: string, t2: string)
    ensures var r1 := Prepare(strategy, present, Object(Some(Fields(fields["title" := Str(t1)]))));
      var r2 := Prepare(strategy, present, Object(Some(Fields(fields["title" := Str(t2)]))));
      && (r1.Success? <==> r2.Success?)
      && (r1.Failure? ==> r1.error == r2.error)
      && (r1.Success? ==>
            && r1.value.task.title == Str(t1) && r2.value.task.title == Str(t2)
            && r1.value.task.videoPath == r2.value.task.videoPath
            && r1.value.task.description == r2.value.task.description)
  {
    if Checks(strategy, present).None? {
      TitleOnlyWarnsRead(VideoPath(strategy), fields, t1, t2);
    }
  }

  /** The hashtags can be read back from the composed description when
      none contains a space: it is the description, a blank line, and the
      tags separated by spaces. */
  lemma DescriptionRecoversTags(description: string, tags: seq<string>)
    requires |tags| > 0
    requires forall i :: 0 <= i < |tags| ==> ' ' !in tags[i]
    ensures var r := FullDescription(description, tags);
      && r[..|description|] == description
      && r[|description|..|description| + 2] == "\n\n"
      && Split(r[|description| + 2..], ' ') == tags
  {
    var r := FullDescription(description, tags);
    var joined := JoinWith(tags, " ");
    assert r == description + "\n\n" + joined;
    assert r[|description| + 2..] == joined;
    assert " " == [' '];
    SplitJoin(tags, ' ');
  }

  lemma NoLongerPattern(x: string)
    requires !Contains(x, "-Strategy")
    ensures !Contains(x, StrategySuffix)
  {
    forall i | 0 <= i <= |x| && OccursAt(x, StrategySuffix, i)
      ensures OccursAt(x, "-Strategy", i)
    {
      assert x[i..i + 9] == x[i..i + |StrategySuffix|][..9];
    }
  }

  /** A name ending in the suffix, with no other occurrence of it, has
      exactly that suffix replaced. */
  lemma ClipOfSuffixed(x: string)
    requires !Contains(x, StrategySuffix)
    ensures ClipFilename(x + StrategySuffix) == x + "-Clip.mp4"
  {
    SuffixUnique();
    assert Replace(x + StrategySuffix, StrategySuffix, "") == x by {
      ReplaceAppendPattern(x, StrategySuffix, "");
      ReplaceAbsent(x, StrategySuffix, "");
    }
  }

  /** The suffix cannot overlap itself: its dash does not recur. */
  lemma SuffixUnique()
    ensures StrategySuffix[0] !in StrategySuffix[1..]
  {
    assert StrategySuffix[1..] == "Strategy.json";
  }

  /** For `X-Strategy.json` with no other `-Strategy` in `X`, the clip
      looked for is `X-Clip.mp4`, the name the producer writes. */
  lemma NamesAgree(dir: string, x: string)
    requires '/' !in x && !Contains(x, "-Strategy")
    ensures ClipFilename(Basename(dir + "/" + x + StrategySuffix)) == x + "-Clip.mp4"
    ensures ClipFilename(Basename(dir + "/" + x + StrategySuffix)) == Pipeline.FinalFilename(dir + "/" + x + StrategySuffix)
  {
    var path := dir + "/" + x + StrategySuffix;
    var name := x + StrategySuffix;
    assert Basename(path) == name by {
      assert '/' !in name by {
        assert '/' !in StrategySuffix;
        NotInAppend('/', x, StrategySuffix);
      }
      AppendAssoc(dir + "/", x, StrategySuffix);
      BasenameAfterSlash(dir, name);
    }
    assert ClipFilename(name) == x + "-Clip.mp4" by {
      NoLongerPattern(x);
      ClipOfSuffixed(x);
    }
    assert Pipeline.FinalFilename(path) == x + "-Clip.mp4" by {
      assert StrategySuffix == "-Strategy" + ".json";
      AppendAssoc(dir + "/" + x, "-Strategy", ".json");
      Pipeline.StrategyNaming("", dir, x);
    }
  }

  /** A strategy file name with a second `-Strategy` inside it. */
  function Doubled(c: char, d: char): string {
    [c] + "-Strategy" + [d] + StrategySuffix
  }

  lemma PublisherStripsSuffixOnly(c: char, d: char)
    ensures ClipFilename(Doubled(c, d)) == [c] + "-Strategy" + [d] + "-Clip.mp4"
  {
    var x := [c] + "-Strategy" + [d];
    assert |x| < |StrategySuffix|;
    ClipOfSuffixed(x);
  }

  lemma RemoveTwoStrategies(c: char, d: char)
    requires c != '-' && d != '-'
    ensures Replace([c] + "-Strategy" + [d] + "-Strategy", "-Strategy", "") == [c] + [d]
  {
    var pat := "-Strategy";
    assert [c] + pat + [d] + pat == [c] + (pat + ([d] + (pat + [])));
    ReplaceAtStart(pat, [], "");
    ReplaceSkipChar(d, pat + [], pat, "");
    ReplaceAtStart(pat, [d] + (pat + []), "");
    ReplaceSkipChar(c, pat + ([d] + (pat + [])), pat, "");
    assert [c] + ([] + ([d] + ([] + []))) == [c] + [d];
  }

  lemma ProducerStripsEvery(dir: string, c: char, d: char)
    requires c != '-' && c != '/' && d != '-' && d != '/'
    ensures Pipeline.FinalFilename(dir + "/" + Doubled(c, d)) == [c] + [d] + "-Clip.mp4"
  {
    var stem := [c] + "-Strategy" + [d] + "-Strategy";
    assert dir + "/" + Doubled(c, d) == dir + "/" + stem + ".json";
    assert '/' !in stem && stem[1] == '-';
    Pipeline.StemOfConfigPath(dir, stem);
    RemoveTwoStrategies(c, d);
  }

  /** With a second `-Strategy` in the name the two scripts disagree: the
      producer removes every `-Strategy`, the publisher only the suffix, so
      the publisher looks for a clip that was never written. */
  lemma NamesDiverge(dir: string, c: char, d: char)
    requires c != '-' && c != '/' && d != '-' && d != '/' && d != '.'
    ensures ClipFilename(Doubled(c, d)) != Pipeline.FinalFilename(dir + "/" + Doubled(c, d))
  {
    PublisherStripsSuffixOnly(c, d);
    ProducerStripsEvery(dir, c, d);
    var publisher := [c] + "-Strategy" + [d] + "-Clip.mp4";
    var producer := [c] + [d] + "-Clip.mp4";
    assert |publisher| == 20 && |producer| == 11;
  }
}
