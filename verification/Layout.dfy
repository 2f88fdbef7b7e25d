/** Layout extraction of one PDF page, end to end. */
module Layout {
  import opened Glyphs
  import opened Seqs
  import opened Text
  import LineText
  import LineBands
  import Columns

  /** Settings read from the environment. */
  datatype Config = Config(wordGapRatio: real, marginRatio: real, detectHeadings: bool, minHeadingChars: int)

  datatype Line = Line(text: string, h: real)

  datatype Box = Box(x0: real, y0: real, x1: real, y1: real)

  /** A line that also remembers its glyphs and their bounding box. */
  datatype RichLine = RichLine(line: Line, chars: seq<Glyph>, bbox: Box)

  // ----- lines of a column

  function LeftToRight(band: seq<Glyph>): seq<Glyph> {
    SortBy(band, X0)
  }

  function BandLine(cfg: Config, band: seq<Glyph>, medH: real): Line {
    var s := LeftToRight(band);
    Line(LineText.JoinLineGlyphs(s, cfg.wordGapRatio), LineBands.MedianHeight(s, medH))
  }

  /** One line for each band whose text is not empty. */
  function BandLines(cfg: Config, bands: seq<seq<Glyph>>, medH: real): seq<Line> {
    if bands == [] then [] else
      var ln := BandLine(cfg, bands[0], medH);
      (if ln.text == "" then [] else [ln]) + BandLines(cfg, bands[1..], medH)
  }

  function LinesOf(cfg: Config, chars: seq<Glyph>): seq<Line> {
    BandLines(cfg, LineBands.LineBandsOf(chars), LineBands.MedianHeight(chars, 1.0))
  }

  lemma {:induction false} BandLinesSnoc(cfg: Config, bands: seq<seq<Glyph>>, band: seq<Glyph>, medH: real)
    ensures BandLines(cfg, bands + [band], medH)
         == BandLines(cfg, bands, medH)
            + (if BandLine(cfg, band, medH).text == "" then [] else [BandLine(cfg, band, medH)])
  {
    hide BandLine;
    if bands == [] {
      assert [band][1..] == [];
      assert [] + [band] == [band];
    } else {
      assert (bands + [band])[1..] == bands[1..] + [band];
      BandLinesSnoc(cfg, bands[1..], band, medH);
    }
  }

  method GroupLines(cfg: Config, chars: seq<Glyph>) returns (out: seq<Line>)
    ensures out == LinesOf(cfg, chars)
  {
    hide BandLines, LineBands.Bands;
    var medH := LineBands.MedianHeight(chars, 1.0);
    LineBands.TolerancePositive(chars);
    var lines := LineBands.BandLoop(LineBands.Ordered(chars), 0.5 * medH);
    out := [];
    NoBands(cfg, medH);
    for i := 0 to |lines|
      invariant out == BandLines(cfg, lines[..i], medH)
    {
      assert lines[..i + 1] == lines[..i] + [lines[i]];
      BandLinesSnoc(cfg, lines[..i], lines[i], medH);
      var s := LeftToRight(lines[i]);
      var text := LineText.JoinLine(s, cfg.wordGapRatio);
      if text != "" {
        out := out + [Line(text, LineBands.MedianHeight(s, medH))];
      }
    }
    assert lines[..|lines|] == lines;
  }

  lemma {:induction false} NoBands(cfg: Config, medH: real)
    ensures BandLines(cfg, [], medH) == []
  {
  }

  function Enclosing(gs: seq<Glyph>): Box
    requires gs != []
  {
    if |gs| == 1 then Box(gs[0].x0, gs[0].y0, gs[0].x1, gs[0].y1) else
      var b := Enclosing(gs[1..]);
      Box(Min(gs[0].x0, b.x0), Min(gs[0].y0, b.y0), Max(gs[0].x1, b.x1), Max(gs[0].y1, b.y1))
  }

  function Plain(rich: seq<RichLine>): seq<Line> {
    if rich == [] then [] else [rich[0].line] + Plain(rich[1..])
  }

  lemma {:induction false} PlainSnoc(rich: seq<RichLine>, r: RichLine)
    ensures Plain(rich + [r]) == Plain(rich) + [r.line]
  {
    if rich == [] {
      assert [] + [r] == [r] && [r][1..] == [];
    } else {
      assert (rich + [r])[1..] == rich[1..] + [r];
      PlainSnoc(rich[1..], r);
    }
  }

  /** The second copy of the routine, which also keeps glyphs and boxes, yields the same texts and heights. */
  method GroupLinesWithChars(cfg: Config, chars: seq<Glyph>) returns (out: seq<RichLine>)
    ensures Plain(out) == LinesOf(cfg, chars)
    ensures forall r :: r in out ==>
      && r.chars != [] && r.bbox == Enclosing(r.chars)
      && r.line.text == LineText.JoinLineGlyphs(r.chars, cfg.wordGapRatio)
      && forall g :: g in r.chars ==> g in chars
  {
    hide BandLines, LineBands.Bands, Enclosing, LineText.JoinLineGlyphs, LeftToRight;
    var medH := LineBands.MedianHeight(chars, 1.0);
    LineBands.TolerancePositive(chars);
    var groups := LineBands.BandLoop(LineBands.Ordered(chars), 0.5 * medH);
    out := [];
    NoBands(cfg, medH);
    for i := 0 to |groups|
      invariant Plain(out) == BandLines(cfg, groups[..i], medH)
      invariant forall r :: r in out ==>
        && r.chars != [] && r.bbox == Enclosing(r.chars)
        && r.line.text == LineText.JoinLineGlyphs(r.chars, cfg.wordGapRatio)
        && forall g :: g in r.chars ==> g in chars
    {
      assert groups[..i + 1] == groups[..i] + [groups[i]];
      BandLinesSnoc(cfg, groups[..i], groups[i], medH);
      var s := LeftToRight(groups[i]);
      BandGlyphs(chars, groups, i);
      var text := LineText.JoinLine(s, cfg.wordGapRatio);
      if text != "" {
        var r := RichLine(Line(text, LineBands.MedianHeight(s, medH)), s, Enclosing(s));
        PlainSnoc(out, r);
        out := out + [r];
      }
    }
    assert groups[..|groups|] == groups;
  }

  lemma {:induction false} BandGlyphs(chars: seq<Glyph>, bands: seq<seq<Glyph>>, i: nat)
    requires bands == LineBands.LineBandsOf(chars) && i < |bands|
    ensures LeftToRight(bands[i]) != [] && forall g :: g in LeftToRight(bands[i]) ==> g in chars
  {
    hide LineBands.Bands;
    var gs := LineBands.Ordered(chars);
    LineBands.OrderedFacts(chars);
    LineBands.BandsFlatten(gs, LineBands.LineTolerance(chars));
    SortFacts(bands[i], X0);
    forall g | g in LeftToRight(bands[i]) ensures g in chars {
      FlatIn(bands, g);
    }
  }

  // ----- orphan punctuation

  predicate Punctuation(c: char) {
    c in ".,;:!?\U{2026}\U{b7}"
  }

  predicate Orphan(t: string) {
    t != "" && |t| <= 4 && forall c :: c in t ==> Punctuation(c) || IsSpace(c)
  }

  /** Text of a line after an orphan `t` was attached to it. */
  function Attach(prev: string, t: string): string {
    var suffix := Visible(t);
    if suffix != "" && prev != "" && !LineText.EndsWith(prev, ' ') && !LineText.EndsWith(prev, '-')
    then prev + suffix
    else Strip(prev + " " + t)
  }

  function MergeLine(merged: seq<Line>, ln: Line): seq<Line> {
    var t := Strip(ln.text);
    if merged != [] && Orphan(t) then
      var last := merged[|merged| - 1];
      merged[..|merged| - 1] + [last.(text := Attach(last.text, t))]
    else merged + [ln]
  }

  function MergeFrom(merged: seq<Line>, lines: seq<Line>): seq<Line>
    decreases |lines|
  {
    if lines == [] then merged else MergeFrom(MergeLine(merged, lines[0]), lines[1..])
  }

  function MergeOrphans(lines: seq<Line>): seq<Line> {
    MergeFrom([], lines)
  }

  method MergeOrphanPunctuation(lines: seq<Line>) returns (merged: seq<Line>)
    ensures merged == MergeOrphans(lines)
  {
    merged := [];
    assert lines[0..] == lines;
    for i := 0 to |lines|
      invariant MergeFrom(merged, lines[i..]) == MergeOrphans(lines)
    {
      var ln := lines[i];
      var t := Strip(ln.text);
      assert lines[i..][1..] == lines[i + 1..];
      if merged != [] && Orphan(t) {
        var suffix := Visible(t);
        var prev := merged[|merged| - 1].text;
        if suffix != "" && prev != "" && !LineText.EndsWith(prev, ' ') && !LineText.EndsWith(prev, '-') {
          merged := merged[..|merged| - 1] + [merged[|merged| - 1].(text := prev + suffix)];
        } else {
          merged := merged[..|merged| - 1] + [merged[|merged| - 1].(text := Strip(prev + " " + t))];
        }
      } else {
        merged := merged + [ln];
      }
    }
  }

  /** All line texts one after the other. */
  function TextsOf(lines: seq<Line>): string {
    if lines == [] then "" else lines[0].text + TextsOf(lines[1..])
  }

  lemma {:induction false} TextsAppend(a: seq<Line>, b: seq<Line>)
    ensures TextsOf(a + b) == TextsOf(a) + TextsOf(b)
  {
    if a == [] {
      assert a + b == b;
    } else {
      assert (a + b)[1..] == a[1..] + b;
      TextsAppend(a[1..], b);
    }
  }

  lemma {:induction false} TextsSnoc(a: seq<Line>, ln: Line)
    ensures Visible(TextsOf(a + [ln])) == Visible(TextsOf(a)) + Visible(ln.text)
  {
    TextsAppend(a, [ln]);
    assert TextsOf([ln]) == ln.text + TextsOf([ln][1..]) == ln.text;
    VisibleAppend(TextsOf(a), ln.text);
  }

  lemma {:induction false} VisibleTwice(s: string)
    ensures Visible(Visible(s)) == Visible(s)
  {
    FilterIn(s, Ink);
    FilterAll(Visible(s), Ink);
  }

  lemma {:induction false} AttachVisible(prev: string, t: string)
    ensures Visible(Attach(prev, t)) == Visible(prev) + Visible(t)
  {
    VisibleTwice(t);
    VisibleAppend(prev, Visible(t));
    VisibleNone(" ");
    VisibleStrip(prev + " " + t);
    VisibleAround(prev, " ", t);
  }

  lemma {:induction false} MergeLineVisible(merged: seq<Line>, ln: Line)
    ensures Visible(TextsOf(MergeLine(merged, ln))) == Visible(TextsOf(merged)) + Visible(ln.text)
  {
    hide Visible, TextsOf, Attach;
    var t := Strip(ln.text);
    VisibleStrip(ln.text);
    if merged != [] && Orphan(t) {
      var init, last := merged[..|merged| - 1], merged[|merged| - 1];
      assert merged == init + [last];
      TextsSnoc(init, last);
      TextsSnoc(init, last.(text := Attach(last.text, t)));
      AttachVisible(last.text, t);
    } else {
      TextsSnoc(merged, ln);
    }
  }

  /** Merging moves punctuation between lines but keeps every visible character, in order. */
  lemma {:induction false} MergeConserves(merged: seq<Line>, lines: seq<Line>)
    ensures Visible(TextsOf(MergeFrom(merged, lines))) == Visible(TextsOf(merged)) + Visible(TextsOf(lines))
    decreases |lines|, 0
  {
    if lines == [] {
      assert Visible("") == "";
    } else {
      MergeStepConserves(merged, lines[0], lines[1..]);
    }
  }

  lemma {:induction false} MergeStepConserves(merged: seq<Line>, ln: Line, rest: seq<Line>)
    ensures Visible(TextsOf(MergeFrom(MergeLine(merged, ln), rest)))
         == Visible(TextsOf(merged)) + Visible(ln.text + TextsOf(rest))
    decreases |rest|, 1
  {
    hide Visible, MergeLine, MergeFrom, TextsOf;
    var whole := Visible(TextsOf(MergeFrom(MergeLine(merged, ln), rest)));
    var m, l, r := Visible(TextsOf(merged)), Visible(ln.text), Visible(TextsOf(rest));
    MergeConserves(MergeLine(merged, ln), rest);
    MergeLineVisible(merged, ln);
    assert whole == (m + l) + r;
    VisibleAppend(ln.text, TextsOf(rest));
    assert (m + l) + r == m + (l + r);
  }

  /** Every line after the first is a proper line, not an orphan. */
  predicate Settled(lines: seq<Line>) {
    forall k :: 0 < k < |lines| ==> !Orphan(Strip(lines[k].text))
  }

  predicate NoBlank(lines: seq<Line>) {
    forall k :: 0 <= k < |lines| ==> Strip(lines[k].text) != ""
  }

  lemma {:induction false} StripGrows(a: string, b: string)
    ensures |Strip(a + b)| >= |Strip(a)|
  {
    var i := LStripCut(a, IsSpace);
    var j := RStripCut(a[i..], IsSpace);
    var s := a + b;
    var m := LStripCut(s, IsSpace);
    var n := RStripCut(s[m..], IsSpace);
    if j > 0 {
      var e := i + j - 1;
      assert a[i..][0] == s[i] && a[i..][j - 1] == s[e];
      assert !IsSpace(s[i]) && !IsSpace(s[e]);
      assert m <= i;
      assert s[m..][e - m] == s[e];
      assert e - m < n;
    }
  }

  lemma {:induction false} StripKeepsInk(s: string, c: char)
    requires !IsSpace(c)
    ensures c in Strip(s) <==> c in s
  {
    VisibleStrip(s);
    FilterIn(s, Ink);
    FilterIn(Strip(s), Ink);
    assert c in Visible(s) <==> c in Visible(Strip(s));
  }

  /** Attaching punctuation to a proper line leaves a proper line. */
  lemma {:induction false} AttachNotOrphan(prev: string, t: string)
    requires Strip(prev) != "" && !Orphan(Strip(prev))
    ensures !Orphan(Strip(Attach(prev, t))) && Strip(Attach(prev, t)) != ""
  {
    hide Strip;
    var r := Attach(prev, t);
    assert |Strip(r)| >= |Strip(prev)| by {
      StripGrows(prev, Visible(t));
      StripGrows(prev, " " + t);
      assert prev + " " + t == prev + (" " + t);
      StripTwice(prev + " " + t);
    }
    if |Strip(prev)| <= 4 {
      var c :| c in Strip(prev) && !Punctuation(c) && !IsSpace(c);
      StripKeepsInk(prev, c);
      StripKeepsInk(r, c);
      StripKeepsInk(prev + " " + t, c);
    }
  }

  lemma {:induction false} StripTwice(s: string)
    ensures Strip(Strip(s)) == Strip(s)
  {
    StripEnds(s, IsSpace);
  }

  /** After merging, only the very first line of a column can still be bare punctuation. */
  lemma {:induction false} MergeSettles(merged: seq<Line>, lines: seq<Line>)
    requires NoBlank(merged) && NoBlank(lines) && Settled(merged)
    ensures Settled(MergeFrom(merged, lines)) && NoBlank(MergeFrom(merged, lines))
    decreases |lines|
  {
    if lines != [] {
      MergeLineSettles(merged, lines[0]);
      MergeSettles(MergeLine(merged, lines[0]), lines[1..]);
    }
  }

  lemma {:induction false} MergeLineSettles(merged: seq<Line>, ln: Line)
    requires NoBlank(merged) && Strip(ln.text) != "" && Settled(merged)
    ensures NoBlank(MergeLine(merged, ln)) && Settled(MergeLine(merged, ln))
  {
    hide Strip, Orphan, Attach;
    var t := Strip(ln.text);
    if merged != [] && Orphan(t) {
      var last := merged[|merged| - 1];
      AttachNotBlank(last.text, t);
      if |merged| > 1 {
        AttachNotOrphan(last.text, t);
      }
    }
  }

  lemma {:induction false} AttachNotBlank(prev: string, t: string)
    requires Strip(prev) != ""
    ensures Strip(Attach(prev, t)) != ""
  {
    hide Strip;
    StripGrows(prev, Visible(t));
    StripGrows(prev, " " + t);
    assert prev + " " + t == prev + (" " + t);
    StripTwice(prev + " " + t);
  }

  lemma {:induction false} LinesNotBlank(cfg: Config, bands: seq<seq<Glyph>>, medH: real)
    ensures NoBlank(BandLines(cfg, bands, medH))
  {
    if bands != [] {
      LinesNotBlank(cfg, bands[1..], medH);
      StripTwice(Flat(LineText.Parts(LeftToRight(bands[0]),
        LineText.GapThreshold(LeftToRight(bands[0]), cfg.wordGapRatio), |LeftToRight(bands[0])|)));
    }
  }

  // ----- headings

  datatype Rendered = Rendered(level: nat, text: string)

  function LineHeights(lines: seq<Line>): (hs: seq<real>)
    ensures |hs| == |lines|
  {
    if lines == [] then [] else [lines[0].h] + LineHeights(lines[1..])
  }

  predicate ClosesSentence(s: string) {
    s == "" || s[|s| - 1] in ".\U{3002}!\U{ff01}?\U{ff1f},\U{ff0c};\U{ff1b}:\U{ff1a}"
  }

  function Level(cfg: Config, ln: Line, body: real): (lv: nat)
    ensures lv <= 3
  {
    var n := |ln.text|;
    if !cfg.detectHeadings || body <= 0.0 || n > 80 || n < cfg.minHeadingChars then 0
    else if ClosesSentence(ln.text) then 0
    else
      var r := ln.h / body;
      if r >= 2.0 then 1 else if r >= 1.6 then 2 else if r >= 1.35 then 3 else 0
  }

  function RenderAll(cfg: Config, lines: seq<Line>, body: real): seq<Rendered> {
    if lines == [] then []
    else [Rendered(Level(cfg, lines[0], body), lines[0].text)] + RenderAll(cfg, lines[1..], body)
  }

  function Headings(rs: seq<Rendered>): nat {
    if rs == [] then 0 else (if rs[0].level > 0 then 1 else 0) + Headings(rs[1..])
  }

  function Flattened(rs: seq<Rendered>): seq<Rendered> {
    if rs == [] then [] else [rs[0].(level := 0)] + Flattened(rs[1..])
  }

  /** Heading levels; dropped altogether when more than two fifths of the lines (and more than one) would be headings. */
  function RenderLines(cfg: Config, lines: seq<Line>): seq<Rendered> {
    if lines == [] then [] else
      var rs := RenderAll(cfg, lines, LineBands.Median(LineHeights(lines)));
      var limit := 2 * |lines| / 5;
      if Headings(rs) > (if limit > 1 then limit else 1) then Flattened(rs) else rs
  }

  function Hashes(n: nat): string {
    if n == 0 then "" else "#" + Hashes(n - 1)
  }

  function RenderLine(r: Rendered): string {
    if r.level > 0 then Hashes(r.level) + " " + r.text else r.text
  }

  function RenderedTexts(rs: seq<Rendered>): seq<string> {
    if rs == [] then [] else [RenderLine(rs[0])] + RenderedTexts(rs[1..])
  }

  function SegmentsToMarkdown(cfg: Config, lines: seq<Line>): string {
    Join("\n", RenderedTexts(RenderLines(cfg, lines)))
  }

  // ----- which columns are read

  function LeftEdge(gs: seq<Glyph>): real
    requires gs != []
  {
    if |gs| == 1 then gs[0].x0 else Min(gs[0].x0, LeftEdge(gs[1..]))
  }

  function RightEdge(gs: seq<Glyph>): real
    requires gs != []
  {
    if |gs| == 1 then gs[0].x1 else Max(gs[0].x1, RightEdge(gs[1..]))
  }

  function ColumnSpan(gs: seq<Glyph>): real {
    if gs == [] then 0.0 else RightEdge(gs) - LeftEdge(gs)
  }

  function ShortLines(lines: seq<Line>): nat {
    if lines == [] then 0 else (if |lines[0].text| <= 2 then 1 else 0) + ShortLines(lines[1..])
  }

  function ShortFraction(lines: seq<Line>): real {
    if lines == [] then 0.0 else ShortLines(lines) as real / |lines| as real
  }

  /** Vertical distance between the highest and the lowest centre. */
  function Tallness(gs: seq<Glyph>): real
    requires gs != []
  {
    LineBands.OrderedFacts(gs);
    var s := LineBands.Ordered(gs);
    SortFacts(gs, LineBands.Downward);
    MidY(s[0]) - MidY(s[|s| - 1])
  }

  /** Margin strips and vertical watermarks. */
  predicate ArtifactColumn(cfg: Config, gs: seq<Glyph>, width: real) {
    if gs == [] || width <= 0.0 || ColumnSpan(gs) <= 0.0 then true else
      var single := ShortFraction(LinesOf(cfg, gs));
      var span := ColumnSpan(gs);
      || (span / width < cfg.marginRatio && single >= 0.45)
      || (Tallness(gs) > span * 3.5 && |gs| >= 8 && single >= 0.35)
  }

  /** The first column of the largest span. */
  function Widest(cols: seq<seq<Glyph>>): seq<Glyph>
    requires cols != []
  {
    if |cols| == 1 then cols[0] else
      var w := Widest(cols[1..]);
      if ColumnSpan(cols[0]) >= ColumnSpan(w) then cols[0] else w
  }

  function FilterReadingColumns(cfg: Config, chars: seq<Glyph>, scale: real, width: real): seq<seq<Glyph>> {
    var cols := Columns.PageColumns(chars, scale, width);
    var kept := Filter(cols, (c: seq<Glyph>) => !ArtifactColumn(cfg, c, width));
    if kept != [] then kept else if |cols| > 1 then [Widest(cols)] else cols
  }

  // ----- the whole page

  /** Lines of one column after merging, with their heading levels. */
  function ColumnLines(cfg: Config, col: seq<Glyph>): seq<Rendered> {
    RenderLines(cfg, MergeOrphans(LinesOf(cfg, col)))
  }

  function PageLines(cfg: Config, cols: seq<seq<Glyph>>): seq<Rendered> {
    if cols == [] then [] else ColumnLines(cfg, cols[0]) + PageLines(cfg, cols[1..])
  }

  /** The markdown text of the page. */
  function LayoutMarkdown(cfg: Config, chars: seq<Glyph>, scale: real, width: real): string {
    Join("\n", RenderedTexts(PageLines(cfg, FilterReadingColumns(cfg, chars, scale, width))))
  }

  // ----- reading order

  function BandsReading(bands: seq<seq<Glyph>>): seq<Glyph> {
    if bands == [] then [] else LeftToRight(bands[0]) + BandsReading(bands[1..])
  }

  /** A column's glyphs line by line, each line from left to right. */
  function ColumnReading(col: seq<Glyph>): seq<Glyph> {
    BandsReading(LineBands.LineBandsOf(col))
  }

  function Reading(cols: seq<seq<Glyph>>): seq<Glyph> {
    if cols == [] then [] else ColumnReading(cols[0]) + Reading(cols[1..])
  }

  lemma {:induction false} BandsReadingPermutes(bands: seq<seq<Glyph>>)
    ensures multiset(BandsReading(bands)) == multiset(Flat(bands))
  {
    if bands != [] {
      BandsReadingPermutes(bands[1..]);
      SortFacts(bands[0], X0);
    }
  }

  lemma {:induction false} ColumnReadingPermutes(col: seq<Glyph>)
    ensures multiset(ColumnReading(col)) == multiset(col)
  {
    LineBands.OrderedFacts(col);
    LineBands.BandsFlatten(LineBands.Ordered(col), LineBands.LineTolerance(col));
    BandsReadingPermutes(LineBands.LineBandsOf(col));
  }

  lemma {:induction false} ReadingPermutes(cols: seq<seq<Glyph>>)
    ensures multiset(Reading(cols)) == multiset(Flat(cols))
  {
    hide ColumnReading;
    if cols != [] {
      ReadingPermutes(cols[1..]);
      ColumnReadingPermutes(cols[0]);
    }
  }

  // ----- conservation

  lemma {:induction false} BandLineVisible(cfg: Config, band: seq<Glyph>, medH: real)
    ensures Visible(BandLine(cfg, band, medH).text) == Visible(LineText.GlyphText(LeftToRight(band)))
  {
    LineText.JoinConserves(LeftToRight(band), cfg.wordGapRatio);
  }

  lemma {:induction false} BandLinesVisible(cfg: Config, bands: seq<seq<Glyph>>, medH: real)
    ensures Visible(TextsOf(BandLines(cfg, bands, medH))) == Visible(LineText.GlyphText(BandsReading(bands)))
  {
    if bands != [] {
      var band, rest := bands[0], bands[1..];
      BandLinesVisible(cfg, rest, medH);
      BandLineVisible(cfg, band, medH);
      BandLinesUnfold(cfg, bands, medH);
      LineText.GlyphTextAppend(LeftToRight(band), BandsReading(rest));
      VisibleAppend(LineText.GlyphText(LeftToRight(band)), LineText.GlyphText(BandsReading(rest)));
      hide Visible, TextsOf, BandLines, BandLine, LineText.GlyphText, LeftToRight;
    }
  }

  lemma {:induction false} BandLinesUnfold(cfg: Config, bands: seq<seq<Glyph>>, medH: real)
    requires bands != []
    ensures Visible(TextsOf(BandLines(cfg, bands, medH)))
         == Visible(BandLine(cfg, bands[0], medH).text) + Visible(TextsOf(BandLines(cfg, bands[1..], medH)))
  {
    hide BandLine;
    var ln := BandLine(cfg, bands[0], medH);
    var rest := BandLines(cfg, bands[1..], medH);
    VisibleAppend(ln.text, TextsOf(rest));
    assert ([ln] + rest)[1..] == rest && [] + rest == rest;
    assert Visible("") == "";
  }

  function RenderedText(rs: seq<Rendered>): string {
    if rs == [] then "" else rs[0].text + RenderedText(rs[1..])
  }

  lemma {:induction false} RenderedTextAppend(a: seq<Rendered>, b: seq<Rendered>)
    ensures RenderedText(a + b) == RenderedText(a) + RenderedText(b)
  {
    if a == [] {
      assert a + b == b;
    } else {
      assert (a + b)[1..] == a[1..] + b;
      RenderedTextAppend(a[1..], b);
    }
  }

  lemma {:induction false} RenderKeepsText(cfg: Config, lines: seq<Line>)
    ensures RenderedText(RenderLines(cfg, lines)) == TextsOf(lines)
  {
    if lines != [] {
      var body := LineBands.Median(LineHeights(lines));
      RenderAllText(cfg, lines, body);
      FlattenedText(RenderAll(cfg, lines, body));
    }
  }

  lemma {:induction false} RenderAllText(cfg: Config, lines: seq<Line>, body: real)
    ensures RenderedText(RenderAll(cfg, lines, body)) == TextsOf(lines)
    ensures |RenderAll(cfg, lines, body)| == |lines|
  {
    hide Level;
    if lines != [] {
      RenderAllText(cfg, lines[1..], body);
    }
  }

  lemma {:induction false} FlattenedText(rs: seq<Rendered>)
    ensures RenderedText(Flattened(rs)) == RenderedText(rs)
    ensures Headings(Flattened(rs)) == 0 && |Flattened(rs)| == |rs|
  {
    if rs != [] {
      FlattenedText(rs[1..]);
    }
  }

  /** At most two fifths of a column's lines, or one, become headings. */
  lemma {:induction false} FewHeadings(cfg: Config, lines: seq<Line>)
    ensures |RenderLines(cfg, lines)| == |lines|
    ensures Headings(RenderLines(cfg, lines)) <= 1 || 5 * Headings(RenderLines(cfg, lines)) <= 2 * |lines|
    ensures !cfg.detectHeadings ==> Headings(RenderLines(cfg, lines)) == 0
  {
    if lines != [] {
      var body := LineBands.Median(LineHeights(lines));
      RenderAllText(cfg, lines, body);
      FlattenedText(RenderAll(cfg, lines, body));
      if !cfg.detectHeadings {
        NoLevels(cfg, lines, body);
      }
    }
  }

  lemma {:induction false} NoLevels(cfg: Config, lines: seq<Line>, body: real)
    requires !cfg.detectHeadings
    ensures Headings(RenderAll(cfg, lines, body)) == 0
  {
    if lines != [] {
      NoLevels(cfg, lines[1..], body);
    }
  }

  lemma {:induction false} ColumnConserves(cfg: Config, col: seq<Glyph>)
    ensures Visible(RenderedText(ColumnLines(cfg, col))) == Visible(LineText.GlyphText(ColumnReading(col)))
  {
    var lines := LinesOf(cfg, col);
    BandLinesVisible(cfg, LineBands.LineBandsOf(col), LineBands.MedianHeight(col, 1.0));
    hide Visible;
    MergeConserves([], lines);
    assert Visible(TextsOf([])) == "" by { VisibleNone(""); }
    RenderKeepsText(cfg, MergeOrphans(lines));
  }

  lemma {:induction false} PageConserves(cfg: Config, cols: seq<seq<Glyph>>)
    ensures Visible(RenderedText(PageLines(cfg, cols))) == Visible(LineText.GlyphText(Reading(cols)))
  {
    if cols != [] {
      hide ColumnLines, ColumnReading, Visible;
      PageConserves(cfg, cols[1..]);
      ColumnConserves(cfg, cols[0]);
      RenderedTextAppend(ColumnLines(cfg, cols[0]), PageLines(cfg, cols[1..]));
      VisibleAppend(RenderedText(ColumnLines(cfg, cols[0])), RenderedText(PageLines(cfg, cols[1..])));
      LineText.GlyphTextAppend(ColumnReading(cols[0]), Reading(cols[1..]));
      VisibleAppend(LineText.GlyphText(ColumnReading(cols[0])), LineText.GlyphText(Reading(cols[1..])));
    }
  }

  /** Visible characters of the page with the heading marks left in. */
  function Marked(rs: seq<Rendered>): string {
    if rs == [] then "" else Hashes(rs[0].level) + Visible(rs[0].text) + Marked(rs[1..])
  }

  lemma {:induction false} HashesVisible(n: nat)
    ensures Visible(Hashes(n)) == Hashes(n)
  {
    if n > 0 {
      HashesVisible(n - 1);
      VisibleAppend("#", Hashes(n - 1));
      assert Visible("#") == "#";
    }
  }

  lemma {:induction false} RenderLineVisible(r: Rendered)
    ensures Visible(RenderLine(r)) == Hashes(r.level) + Visible(r.text)
  {
    HashesVisible(r.level);
    VisibleNone(" ");
    VisibleAround(Hashes(r.level), " ", r.text);
  }

  lemma {:induction false} RenderedVisible(rs: seq<Rendered>)
    ensures Visible(Flat(RenderedTexts(rs))) == Marked(rs)
  {
    if rs != [] {
      var rest := RenderedTexts(rs[1..]);
      RenderedVisible(rs[1..]);
      RenderLineVisible(rs[0]);
      assert RenderedTexts(rs)[1..] == rest;
      VisibleAppend(RenderLine(rs[0]), Flat(rest));
      hide Visible, RenderLine, Hashes;
    }
  }

  lemma {:induction false} WidestIn(cols: seq<seq<Glyph>>)
    requires cols != []
    ensures Widest(cols) in cols
  {
    if |cols| > 1 {
      WidestIn(cols[1..]);
    }
  }

  /**
   * Layout extraction conserves text: some column is kept, and, heading marks aside, the visible characters of the
   * page text are those of the kept columns' glyphs, each glyph once, in column, then line, then x order.
   */
  lemma {:induction false} LayoutConserves(cfg: Config, chars: seq<Glyph>, scale: real, width: real)
    requires chars != []
    ensures var cols := FilterReadingColumns(cfg, chars, scale, width);
      && cols != []
      && (forall c :: c in cols ==> c in Columns.PageColumns(chars, scale, width))
      && multiset(Reading(cols)) == multiset(Flat(cols))
      && Visible(LayoutMarkdown(cfg, chars, scale, width)) == Marked(PageLines(cfg, cols))
      && Visible(RenderedText(PageLines(cfg, cols))) == Visible(LineText.GlyphText(Reading(cols)))
  {
    KeptColumns(cfg, chars, scale, width);
    hide FilterReadingColumns, PageLines, Visible, Reading, Flat, Marked, RenderedTexts;
    var cols := FilterReadingColumns(cfg, chars, scale, width);
    ReadingPermutes(cols);
    PageConserves(cfg, cols);
    RenderedVisible(PageLines(cfg, cols));
    VisibleJoin("\n", RenderedTexts(PageLines(cfg, cols)));
  }

  lemma {:induction false} KeptColumns(cfg: Config, chars: seq<Glyph>, scale: real, width: real)
    requires chars != []
    ensures var cols := FilterReadingColumns(cfg, chars, scale, width);
      && cols != []
      && forall c :: c in cols ==> c in Columns.PageColumns(chars, scale, width)
  {
    var cols := Columns.PageColumns(chars, scale, width);
    Columns.ColumnsPartition(chars, Columns.MinGap(scale, width), 0);
    hide Columns.SplitColumns, ArtifactColumn, Columns.Shares;
    assert cols != [] by { assert Columns.Shares(cols, chars); Columns.SharesSome(cols, chars); }
    FilterIn(cols, (c: seq<Glyph>) => !ArtifactColumn(cfg, c, width));
    WidestIn(cols);
  }

  /** Without heading detection the visible text is exactly the kept glyphs' text. */
  lemma {:induction false} PlainLayoutConserves(cfg: Config, chars: seq<Glyph>, scale: real, width: real)
    requires chars != [] && !cfg.detectHeadings
    ensures Visible(LayoutMarkdown(cfg, chars, scale, width))
         == Visible(LineText.GlyphText(Reading(FilterReadingColumns(cfg, chars, scale, width))))
  {
    hide FilterReadingColumns, LayoutMarkdown;
    var cols := FilterReadingColumns(cfg, chars, scale, width);
    LayoutConserves(cfg, chars, scale, width);
    PageUnmarked(cfg, cols);
    MarkedPlain(PageLines(cfg, cols));
  }

  predicate NoHeadings(rs: seq<Rendered>) {
    forall r :: r in rs ==> r.level == 0
  }

  lemma {:induction false} HeadingsNone(rs: seq<Rendered>)
    requires Headings(rs) == 0
    ensures NoHeadings(rs)
  {
    if rs != [] {
      HeadingsNone(rs[1..]);
    }
  }

  lemma {:induction false} PageUnmarked(cfg: Config, cols: seq<seq<Glyph>>)
    requires !cfg.detectHeadings
    ensures NoHeadings(PageLines(cfg, cols))
  {
    if cols != [] {
      PageUnmarked(cfg, cols[1..]);
      FewHeadings(cfg, MergeOrphans(LinesOf(cfg, cols[0])));
      HeadingsNone(ColumnLines(cfg, cols[0]));
      hide ColumnLines;
    }
  }

  lemma {:induction false} MarkedPlain(rs: seq<Rendered>)
    requires NoHeadings(rs)
    ensures Marked(rs) == Visible(RenderedText(rs))
  {
    if rs == [] {
      VisibleNone("");
    } else {
      assert rs[0] in rs;
      MarkedPlain(rs[1..]);
      VisibleAppend(rs[0].text, RenderedText(rs[1..]));
      hide Visible;
    }
  }

  // ----- the page-level loop over columns

  lemma {:induction false} RenderedTextsAppend(a: seq<Rendered>, b: seq<Rendered>)
    ensures RenderedTexts(a + b) == RenderedTexts(a) + RenderedTexts(b)
  {
    hide RenderLine;
    if a == [] {
      assert a + b == b;
    } else {
      assert (a + b)[1..] == a[1..] + b;
      RenderedTextsAppend(a[1..], b);
    }
  }

  lemma {:induction false} PageLinesSnoc(cfg: Config, cols: seq<seq<Glyph>>, col: seq<Glyph>)
    ensures PageLines(cfg, cols + [col]) == PageLines(cfg, cols) + ColumnLines(cfg, col)
  {
    hide ColumnLines;
    if cols == [] {
      assert cols + [col] == [col] && [col][1..] == [];
      assert PageLines(cfg, [col]) == ColumnLines(cfg, col) + PageLines(cfg, []);
    } else {
      assert (cols + [col])[1..] == cols[1..] + [col];
      PageLinesSnoc(cfg, cols[1..], col);
    }
  }

  /** A column renders to the empty string only when it has no lines. */
  lemma {:induction false} EmptyBlock(cfg: Config, col: seq<Glyph>)
    ensures Join("\n", RenderedTexts(ColumnLines(cfg, col))) == "" <==> ColumnLines(cfg, col) == []
    ensures RenderedTexts(ColumnLines(cfg, col)) == [] <==> ColumnLines(cfg, col) == []
  {
    var lines := LinesOf(cfg, col);
    LinesNotBlank(cfg, LineBands.LineBandsOf(col), LineBands.MedianHeight(col, 1.0));
    MergeSettles([], lines);
  }

  method CharsToLayoutMarkdown(cfg: Config, chars: seq<Glyph>, scale: real, width: real) returns (text: string)
    ensures text == LayoutMarkdown(cfg, chars, scale, width)
  {
    hide FilterReadingColumns, LinesOf, MergeOrphans, RenderLines, Join, RenderedTexts;
    var cols := FilterReadingColumns(cfg, chars, scale, width);
    var blocks: seq<string> := [];
    ghost var shown: seq<Rendered> := [];
    NothingRendered();
    for i := 0 to |cols|
      invariant shown == PageLines(cfg, cols[..i])
      invariant blocks == [] <==> shown == []
      invariant RenderedTexts(shown) == [] <==> shown == []
      invariant Join("\n", blocks) == Join("\n", RenderedTexts(shown))
    {
      assert cols[..i + 1] == cols[..i] + [cols[i]];
      PageLinesSnoc(cfg, cols[..i], cols[i]);
      EmptyBlock(cfg, cols[i]);
      var lines := GroupLines(cfg, cols[i]);
      var merged := MergeOrphanPunctuation(lines);
      var md := SegmentsToMarkdown(cfg, merged);
      AppendBlock(blocks, shown, ColumnLines(cfg, cols[i]), md);
      if md != "" {
        blocks := blocks + [md];
      }
      shown := shown + ColumnLines(cfg, cols[i]);
    }
    assert cols[..|cols|] == cols;
    text := Join("\n", blocks);
  }

  lemma {:induction false} NothingRendered()
    ensures RenderedTexts([]) == [] && Join("\n", []) == ""
  {
  }

  lemma {:induction false} AppendBlock(blocks: seq<string>, shown: seq<Rendered>, more: seq<Rendered>, md: string)
    requires md == Join("\n", RenderedTexts(more)) && (md == "" <==> more == [])
    requires RenderedTexts(more) == [] <==> more == []
    requires RenderedTexts(shown) == [] <==> shown == []
    requires blocks == [] <==> shown == []
    requires Join("\n", blocks) == Join("\n", RenderedTexts(shown))
    ensures more == [] ==> shown + more == shown
    ensures more != [] ==> Join("\n", blocks + [md]) == Join("\n", RenderedTexts(shown + more))
    ensures RenderedTexts(shown + more) == [] <==> shown + more == []
  {
    RenderedTextsAppend(shown, more);
    hide RenderedTexts;
    if more != [] {
      assert Join("\n", [md]) == md;
      if shown == [] {
        assert blocks + [md] == [md] && shown + more == more;
      } else {
        JoinAppend("\n", blocks, [md]);
        JoinAppend("\n", RenderedTexts(shown), RenderedTexts(more));
      }
    }
  }
}
