/** The `-filter_complex` argument built by `process_clip`: a split of the
    source into background and foreground, a blurred cover-scaled
    background, a width-scaled foreground laid over it, and a chain of
    `drawtext` filters, the title first and then one per wrapped commentary
    line. The nodes are typed here and rendered to the string at the end. */
module FilterGraph {
  import opened Text
  import opened Numerals
  import opened Wrappers
  import opened Escape

  const TitleY: nat := 350
  /** `base_y` and `line_height`. */
  const BaseY: nat := 1400
  const LineHeight: nat := 80

  /** One `drawtext` filter; `text` is the raw text, escaped when rendered. */
  datatype DrawText = DrawText(fontFile: string, text: string, fontSize: nat, y: nat, border: nat, shadow: nat)

  function TitleDraw(fontFile: string, title: string): DrawText {
    DrawText(fontFile, title, 80, TitleY, 4, 4)
  }

  function CommentaryDraw(fontFile: string, line: string, i: nat): DrawText {
    DrawText(fontFile, line, 55, BaseY + i * LineHeight, 3, 3)
  }

  /** `draw_cmds`: the title, then the commentary lines in order. */
  function DrawChain(fontFile: string, title: string, lines: seq<string>): seq<DrawText> {
    [TitleDraw(fontFile, title)] + seq(|lines|, i requires 0 <= i < |lines| => CommentaryDraw(fontFile, lines[i], i))
  }

  /** The text of a `drawtext` option list; the font path is inserted as is,
      the text escaped. */
  function Render(d: DrawText): string {
    "drawtext=fontfile='" + d.fontFile + "':text='" + EscapeText(d.text) + "':"
    + "fontcolor=yellow:fontsize=" + NatToString(d.fontSize) + ":"
    + "x=(w-text_w)/2:y=" + NatToString(d.y) + ":"
    + "borderw=" + NatToString(d.border) + ":bordercolor=black:"
    + "shadowx=" + NatToString(d.shadow) + ":shadowy=" + NatToString(d.shadow)
  }

  /** `draw_text_filter`: the rendered chain joined by commas. */
  function DrawTextFilter(chain: seq<DrawText>): string {
    JoinWith(seq(|chain|, i requires 0 <= i < |chain| => Render(chain[i])), ",")
  }

  /** The draw chain of a clip: one entry per line plus the title, the
      title at y = 350 in size 80, commentary line i at y = 1400 + 80 i in
      size 55, each carrying its own text. */
  lemma DrawChainShape(fontFile: string, title: string, lines: seq<string>)
    ensures var chain := DrawChain(fontFile, title, lines);
      && |chain| == 1 + |lines|
      && chain[0].text == title && chain[0].y == 350 && chain[0].fontSize == 80
      && forall i :: 0 <= i < |lines| ==>
           chain[i + 1].text == lines[i] && chain[i + 1].y == 1400 + 80 * i && chain[i + 1].fontSize == 55
  {
  }

  lemma SmallNumerals()
    ensures NatToString(3) == "3" && NatToString(4) == "4"
    ensures NatToString(55) == "55" && NatToString(80) == "80" && NatToString(350) == "350"
  {
    assert NatToString(5) == "5" && NatToString(8) == "8";
    assert NatToString(35) == NatToString(3) + "5";
  }

  /** The rendered title entry carries the source's fixed size 80, y = 350,
      border and shadow 4, and its text field reads back as the title. */
  lemma TitleRendering(fontFile: string, title: string)
    ensures Render(TitleDraw(fontFile, title))
      == "drawtext=fontfile='" + fontFile + "':text='" + EscapeText(title) + "':"
       + "fontcolor=yellow:fontsize=" + "80" + ":"
       + "x=(w-text_w)/2:y=" + "350" + ":"
       + "borderw=" + "4" + ":bordercolor=black:"
       + "shadowx=" + "4" + ":shadowy=" + "4"
    ensures Unescape(EscapeText(title)) == Some(title)
  {
    SmallNumerals();
    UnescapeEscapeText(title);
  }

  /** The rendered commentary entry i carries size 55, y = 1400 + 80 i,
      border and shadow 3, and its text field reads back as the line. */
  lemma CommentaryRendering(fontFile: string, line: string, i: nat)
    ensures Render(CommentaryDraw(fontFile, line, i))
      == "drawtext=fontfile='" + fontFile + "':text='" + EscapeText(line) + "':"
       + "fontcolor=yellow:fontsize=" + "55" + ":"
       + "x=(w-text_w)/2:y=" + NatToString(1400 + 80 * i) + ":"
       + "borderw=" + "3" + ":bordercolor=black:"
       + "shadowx=" + "3" + ":shadowy=" + "3"
    ensures Unescape(EscapeText(line)) == Some(line)
  {
    SmallNumerals();
    UnescapeEscapeText(line);
  }

  // ---------------------------------------------------------------------
  // The graph

  /** The named streams of the graph; `Source` is the input's video
      stream `0:v`, `Outv` the stream mapped into the output file. */
  datatype Pad = Source | Bg | Main | BgBlurred | MainScaled | Merged | Outv

  function Label(p: Pad): string {
    match p
    case Source => "0:v"
    case Bg => "bg"
    case Main => "main"
    case BgBlurred => "bg_blurred"
    case MainScaled => "main_scaled"
    case Merged => "merged"
    case Outv => "outv"
  }

  /** Distinct streams have distinct labels, so the typed graph and its text
      name the same connections. */
  lemma LabelInjective(p: Pad, q: Pad)
    requires p != q
    ensures Label(p) != Label(q)
  {
    if |Label(p)| == |Label(q)| {
      // equal lengths: main/outv share length 4 and differ at the first letter
      assert Label(p)[0] != Label(q)[0];
    }
  }

  /** A filter chain with its input and output pads. */
  datatype Filter = Filter(inputs: seq<Pad>, body: string, outputs: seq<Pad>)

  const BlurBody := "scale=1080:1920:force_original_aspect_ratio=increase,crop=1080:1920,boxblur=20:10"

  /** The five chains of `filter_complex`, the last carrying the draw chain. */
  function Graph(drawTextFilter: string): seq<Filter> {
    [ Filter([Source], "split=2", [Bg, Main]),
      Filter([Bg], BlurBody, [BgBlurred]),
      Filter([Main], "scale=1080:-1", [MainScaled]),
      Filter([BgBlurred, MainScaled], "overlay=0:(H-h)/2", [Merged]),
      Filter([Merged], drawTextFilter, [Outv]) ]
  }

  function Pads(names: seq<Pad>): string {
    if |names| == 0 then [] else "[" + Label(names[0]) + "]" + Pads(names[1..])
  }

  function RenderFilter(f: Filter): string {
    Pads(f.inputs) + f.body + Pads(f.outputs)
  }

  function Serialize(g: seq<Filter>): string {
    JoinWith(seq(|g|, i requires 0 <= i < |g| => RenderFilter(g[i])), ";")
  }

  /** `filter_complex` for a clip's title and wrapped commentary lines. */
  function FilterComplex(fontFile: string, title: string, lines: seq<string>): string {
    Serialize(Graph(DrawTextFilter(DrawChain(fontFile, title, lines))))
  }

  lemma PadsOne(a: Pad)
    ensures Pads([a]) == "[" + Label(a) + "]"
  {
    assert [a][1..] == [];
  }

  lemma PadsTwo(a: Pad, b: Pad)
    ensures Pads([a, b]) == "[" + Label(a) + "]" + ("[" + Label(b) + "]")
  {
    assert [a, b][1..] == [b];
    PadsOne(b);
  }

  lemma JoinFive(a: string, b: string, c: string, d: string, e: string, sep: string)
    ensures JoinWith([a, b, c, d, e], sep) == a + sep + (b + sep + (c + sep + (d + sep + e)))
  {
    assert JoinWith([d, e], sep) == d + sep + JoinWith([e], sep) by {
      assert [d, e][1..] == [e];
    }
    assert JoinWith([c, d, e], sep) == c + sep + JoinWith([d, e], sep) by {
      assert [c, d, e][1..] == [d, e];
    }
    assert JoinWith([b, c, d, e], sep) == b + sep + JoinWith([c, d, e], sep) by {
      assert [b, c, d, e][1..] == [c, d, e];
    }
    assert [a, b, c, d, e][1..] == [b, c, d, e];
  }

  lemma SplitText()
    ensures RenderFilter(Filter([Source], "split=2", [Bg, Main])) == "[0:v]" + "split=2" + ("[bg]" + "[main]")
  {
    PadsOne(Source);
    PadsTwo(Bg, Main);
  }

  lemma BlurText()
    ensures RenderFilter(Filter([Bg], BlurBody, [BgBlurred]))
      == "[bg]" + "scale=1080:1920:force_original_aspect_ratio=increase,crop=1080:1920,boxblur=20:10" + "[bg_blurred]"
  {
    PadsOne(Bg);
    PadsOne(BgBlurred);
  }

  lemma ScaleText()
    ensures RenderFilter(Filter([Main], "scale=1080:-1", [MainScaled])) == "[main]" + "scale=1080:-1" + "[main_scaled]"
  {
    PadsOne(Main);
    PadsOne(MainScaled);
  }

  lemma OverlayText()
    ensures RenderFilter(Filter([BgBlurred, MainScaled], "overlay=0:(H-h)/2", [Merged]))
      == "[bg_blurred]" + "[main_scaled]" + "overlay=0:(H-h)/2" + "[merged]"
  {
    PadsTwo(BgBlurred, MainScaled);
    PadsOne(Merged);
  }

  lemma DrawStageText(drawTextFilter: string)
    ensures RenderFilter(Filter([Merged], drawTextFilter, [Outv])) == "[merged]" + drawTextFilter + "[outv]"
  {
    PadsOne(Merged);
    PadsOne(Outv);
  }

  /** The typed graph renders to the source's literal: the fixed
      split/scale/blur/overlay chains, then `[merged]`, the comma-joined
      draw chain and `[outv]`, separated by semicolons. */
  lemma SerializeGraph(drawTextFilter: string)
    ensures Serialize(Graph(drawTextFilter))
      == "[0:v]" + "split=2" + ("[bg]" + "[main]") + ";"
       + ("[bg]" + "scale=1080:1920:force_original_aspect_ratio=increase,crop=1080:1920,boxblur=20:10" + "[bg_blurred]" + ";"
       + ("[main]" + "scale=1080:-1" + "[main_scaled]" + ";"
       + ("[bg_blurred]" + "[main_scaled]" + "overlay=0:(H-h)/2" + "[merged]" + ";"
       + ("[merged]" + drawTextFilter + "[outv]"))))
  {
    var g := Graph(drawTextFilter);
    var r := seq(|g|, i requires 0 <= i < |g| => RenderFilter(g[i]));
    SplitText();
    BlurText();
    ScaleText();
    OverlayText();
    DrawStageText(drawTextFilter);
    assert r == [r[0], r[1], r[2], r[3], r[4]];
    JoinFive(r[0], r[1], r[2], r[3], r[4], ";");
  }

  /** `filter_complex` of a clip is that literal around its draw chain. */
  lemma FilterComplexText(fontFile: string, title: string, lines: seq<string>)
    ensures FilterComplex(fontFile, title, lines)
      == "[0:v]" + "split=2" + ("[bg]" + "[main]") + ";"
       + ("[bg]" + "scale=1080:1920:force_original_aspect_ratio=increase,crop=1080:1920,boxblur=20:10" + "[bg_blurred]" + ";"
       + ("[main]" + "scale=1080:-1" + "[main_scaled]" + ";"
       + ("[bg_blurred]" + "[main_scaled]" + "overlay=0:(H-h)/2" + "[merged]" + ";"
       + ("[merged]" + DrawTextFilter(DrawChain(fontFile, title, lines)) + "[outv]"))))
  {
    SerializeGraph(DrawTextFilter(DrawChain(fontFile, title, lines)));
  }

  // ---------------------------------------------------------------------
  // Pad discipline

  function OutputPads(g: seq<Filter>): seq<Pad> {
    if |g| == 0 then [] else g[0].outputs + OutputPads(g[1..])
  }

  predicate ProducedBefore(g: seq<Filter>, i: nat, pad: Pad) {
    exists j :: 0 <= j < i && j < |g| && pad in g[j].outputs
  }

  predicate ConsumedAfter(g: seq<Filter>, i: nat, pad: Pad) {
    exists j :: i < j < |g| && pad in g[j].inputs
  }

  /** No stream is produced twice. */
  predicate DistinctOutputs(g: seq<Filter>) {
    forall p, q :: 0 <= p < q < |OutputPads(g)| ==> OutputPads(g)[p] != OutputPads(g)[q]
  }

  /** Every input is the source stream or an earlier output. */
  predicate InputsResolved(g: seq<Filter>) {
    forall i, k :: 0 <= i < |g| && 0 <= k < |g[i].inputs| ==>
      g[i].inputs[k] == Source || ProducedBefore(g, i, g[i].inputs[k])
  }

  /** Every output but the final one feeds a later chain, and the final one
      feeds nothing. */
  predicate OutputsConsumed(g: seq<Filter>) {
    forall i, k :: 0 <= i < |g| && 0 <= k < |g[i].outputs| ==>
      (ConsumedAfter(g, i, g[i].outputs[k]) <==> g[i].outputs[k] != Outv)
  }

  predicate WellFormed(g: seq<Filter>) {
    DistinctOutputs(g) && InputsResolved(g) && OutputsConsumed(g) && Outv in OutputPads(g)
  }

  lemma GraphOutputs(drawTextFilter: string)
    ensures OutputPads(Graph(drawTextFilter)) == [Bg, Main, BgBlurred, MainScaled, Merged, Outv]
  {
    var g := Graph(drawTextFilter);
    assert OutputPads(g[5..]) == [];
    assert g[4..][1..] == g[5..];
    assert OutputPads(g[4..]) == [Outv];
    assert g[3..][1..] == g[4..];
    assert OutputPads(g[3..]) == [Merged, Outv];
    assert g[2..][1..] == g[3..];
    assert OutputPads(g[2..]) == [MainScaled, Merged, Outv];
    assert g[1..][1..] == g[2..];
    assert OutputPads(g[1..]) == [BgBlurred, MainScaled, Merged, Outv];
  }

  lemma GraphOutputsDistinct(drawTextFilter: string)
    ensures DistinctOutputs(Graph(drawTextFilter))
  {
    var outs := OutputPads(Graph(drawTextFilter));
    GraphOutputs(drawTextFilter);
    forall p, q | 0 <= p < q < |outs|
      ensures outs[p] != outs[q]
    {
      // the six pads are listed in the order of their declaration
      assert PadIndex(outs[p]) == p + 1 && PadIndex(outs[q]) == q + 1;
    }
  }

  function PadIndex(p: Pad): nat {
    match p
    case Source => 0
    case Bg => 1
    case Main => 2
    case BgBlurred => 3
    case MainScaled => 4
    case Merged => 5
    case Outv => 6
  }

  lemma GraphInputsResolved(drawTextFilter: string)
    ensures InputsResolved(Graph(drawTextFilter))
  {
    var g := Graph(drawTextFilter);
    forall i, k | 0 <= i < |g| && 0 <= k < |g[i].inputs|
      ensures g[i].inputs[k] == Source || ProducedBefore(g, i, g[i].inputs[k])
    {
      if i == 1 {
        assert g[0].outputs[0] == Bg;
      } else if i == 2 {
        assert g[0].outputs[1] == Main;
      } else if i == 3 {
        assert g[1].outputs[0] == BgBlurred && g[2].outputs[0] == MainScaled;
      } else if i == 4 {
        assert g[3].outputs[0] == Merged;
      }
    }
  }

  lemma GraphOutputsConsumed(drawTextFilter: string)
    ensures OutputsConsumed(Graph(drawTextFilter))
  {
    var g := Graph(drawTextFilter);
    forall i, k | 0 <= i < |g| && 0 <= k < |g[i].outputs|
      ensures ConsumedAfter(g, i, g[i].outputs[k]) <==> g[i].outputs[k] != Outv
    {
      if i == 0 {
        assert g[1].inputs[0] == Bg && g[2].inputs[0] == Main;
      } else if i == 1 {
        assert g[3].inputs[0] == BgBlurred;
      } else if i == 2 {
        assert g[3].inputs[1] == MainScaled;
      } else if i == 3 {
        assert g[4].inputs[0] == Merged;
      }
    }
  }

  /** The graph of every clip resolves to the single output `[outv]`. */
  lemma GraphWellFormed(drawTextFilter: string)
    ensures WellFormed(Graph(drawTextFilter))
  {
    GraphOutputs(drawTextFilter);
    GraphOutputsDistinct(drawTextFilter);
    GraphInputsResolved(drawTextFilter);
    GraphOutputsConsumed(drawTextFilter);
  }
}
