/** What the page layout keeps, in which order, and how. */
module LayoutLaws {
  import opened Glyphs
  import opened Seqs
  import opened Text
  import opened Layout
  import LineText
  import LineBands
  import Columns

  // ----- medians

  function Below(v: real): real -> bool { (x: real) => x < v }

  function UpTo(v: real): real -> bool { (x: real) => x <= v }

  /** `v` takes place `k` when the numbers are put in order. */
  ghost predicate Rank(xs: seq<real>, v: real, k: int) {
    |Filter(xs, Below(v))| <= k < |Filter(xs, UpTo(v))|
  }

  ghost predicate LowerMiddle(xs: seq<real>, v: real) { Rank(xs, v, (|xs| - 1) / 2) }

  ghost predicate UpperMiddle(xs: seq<real>, v: real) { Rank(xs, v, |xs| / 2) }

  /** The middle number, or half-way between the two middle ones. */
  ghost predicate Middle(xs: seq<real>, m: real) {
    exists lo, hi :: LowerMiddle(xs, lo) && UpperMiddle(xs, hi) && m == (lo + hi) / 2.0
  }

  ghost predicate Rising(s: seq<real>) {
    forall i, j :: 0 <= i < j < |s| ==> s[i] <= s[j]
  }

  lemma {:induction false} FewBelow(s: seq<real>, k: nat)
    requires Rising(s) && k < |s|
    ensures |Filter(s, Below(s[k]))| <= k
  {
    var front, back := s[..k], s[k..];
    var p := Below(s[k]);
    assert s == front + back;
    FilterAppend(front, back, p);
    forall x | x in back ensures !p(x) {
      var i :| 0 <= i < |back| && back[i] == x;
      assert back[i] == s[k + i];
    }
    FilterNone(back, p);
    FilterIn(front, p);
  }

  lemma {:induction false} ManyUpTo(s: seq<real>, k: nat)
    requires Rising(s) && k < |s|
    ensures k < |Filter(s, UpTo(s[k]))|
  {
    var front, back := s[..k + 1], s[k + 1..];
    var p := UpTo(s[k]);
    assert s == front + back;
    FilterAppend(front, back, p);
    forall x | x in front ensures p(x) {
      var i :| 0 <= i < |front| && front[i] == x;
      assert front[i] == s[i];
    }
    FilterAll(front, p);
  }

  lemma {:induction false} SameCount(a: seq<real>, b: seq<real>, p: real -> bool)
    requires multiset(a) == multiset(b)
    ensures |Filter(a, p)| == |Filter(b, p)|
  {
    FilterMultiset(a, b, p);
    assert |Filter(a, p)| == |multiset(Filter(a, p))|;
    assert |Filter(b, p)| == |multiset(Filter(b, p))|;
  }

  lemma {:induction false} SortRises(xs: seq<real>)
    ensures Rising(SortBy(xs, LineBands.Id)) && multiset(SortBy(xs, LineBands.Id)) == multiset(xs)
    ensures |SortBy(xs, LineBands.Id)| == |xs|
  {
    SortFacts(xs, LineBands.Id);
    var s := SortBy(xs, LineBands.Id);
    forall i, j | 0 <= i < j < |s| ensures s[i] <= s[j] {
      assert LineBands.Id(s[i]) <= LineBands.Id(s[j]);
    }
    assert |multiset(s)| == |multiset(xs)|;
  }

  lemma {:induction false} RankOf(xs: seq<real>, s: seq<real>, k: nat)
    requires Rising(s) && multiset(s) == multiset(xs) && k < |s|
    ensures Rank(xs, s[k], k)
  {
    hide Filter, Below, UpTo;
    FewBelow(s, k);
    ManyUpTo(s, k);
    SameCount(xs, s, Below(s[k]));
    SameCount(xs, s, UpTo(s[k]));
  }

  lemma {:induction false} MedianIsMiddle(xs: seq<real>)
    requires xs != []
    ensures Middle(xs, LineBands.Median(xs))
  {
    hide *;
    var s := SortBy(xs, LineBands.Id);
    var lo, hi := (|xs| - 1) / 2, |xs| / 2;
    SortRises(xs);
    MedianAt(xs);
    RankOf(xs, s, lo);
    RankOf(xs, s, hi);
    AreMiddle(xs, s[lo], s[hi]);
  }

  lemma AreMiddle(xs: seq<real>, lo: real, hi: real)
    requires Rank(xs, lo, (|xs| - 1) / 2) && Rank(xs, hi, |xs| / 2)
    ensures Middle(xs, (lo + hi) / 2.0)
  {
    hide Rank;
    assert LowerMiddle(xs, lo) && UpperMiddle(xs, hi);
  }

  lemma MedianAt(xs: seq<real>)
    requires xs != []
    ensures var s := SortBy(xs, LineBands.Id);
      |s| == |xs| && LineBands.Median(xs) == (s[(|xs| - 1) / 2] + s[|xs| / 2]) / 2.0
  {
    SortRises(xs);
    hide SortBy, Rising;
    if |xs| % 2 == 1 {
      assert (|xs| - 1) / 2 == |xs| / 2;
    } else {
      assert (|xs| - 1) / 2 == |xs| / 2 - 1;
    }
  }

  // ----- line height and word gap

  predicate Tall(g: Glyph) { g.y1 > g.y0 }

  predicate Wide(g: Glyph) { g.x1 > g.x0 }

  ghost predicate AreHeights(hs: seq<real>, gs: seq<Glyph>) {
    |hs| == |gs| && forall k :: 0 <= k < |hs| ==> hs[k] == gs[k].y1 - gs[k].y0
  }

  ghost predicate AreWidths(ws: seq<real>, gs: seq<Glyph>) {
    |ws| == |gs| && forall k :: 0 <= k < |ws| ==> ws[k] == gs[k].x1 - gs[k].x0
  }

  lemma HeightsStep(gs: seq<Glyph>)
    requires gs != []
    ensures LineBands.Heights(gs)
         == (if Tall(gs[0]) then [gs[0].y1 - gs[0].y0] else []) + LineBands.Heights(gs[1..])
    ensures LineBands.Heights([]) == [] && Filter<Glyph>([], Tall) == []
  {
  }

  lemma WidthsStep(gs: seq<Glyph>)
    requires gs != []
    ensures LineText.Widths(gs) == (if Wide(gs[0]) then [gs[0].x1 - gs[0].x0] else []) + LineText.Widths(gs[1..])
    ensures LineText.Widths([]) == [] && Filter<Glyph>([], Wide) == []
  {
  }

  lemma {:induction false} HeightsAre(gs: seq<Glyph>)
    ensures AreHeights(LineBands.Heights(gs), Filter(gs, Tall))
  {
    if gs != [] {
      HeightsAre(gs[1..]);
      HeightsStep(gs);
      FilterCons(gs[0], gs[1..], Tall);
      assert [gs[0]] + gs[1..] == gs;
      var hs := LineBands.Heights(gs[1..]);
      assert [] + hs == hs;
    }
    hide Filter, LineBands.Heights, Tall;
  }

  lemma {:induction false} WidthsAre(gs: seq<Glyph>)
    ensures AreWidths(LineText.Widths(gs), Filter(gs, Wide))
  {
    if gs != [] {
      WidthsAre(gs[1..]);
      WidthsStep(gs);
      FilterCons(gs[0], gs[1..], Wide);
      assert [gs[0]] + gs[1..] == gs;
      var ws := LineText.Widths(gs[1..]);
      assert [] + ws == ws;
    }
    hide Filter, LineText.Widths, Wide;
  }

  /** Two glyphs share a line while their centres are within half the middle glyph height, 0.5 when no glyph has a height. */
  lemma {:induction false} ToleranceIsHalfHeight(gs: seq<Glyph>)
    ensures if Filter(gs, Tall) == [] then LineBands.LineTolerance(gs) == 0.5
      else exists hs :: AreHeights(hs, Filter(gs, Tall)) && Middle(hs, 2.0 * LineBands.LineTolerance(gs))
  {
    HeightsAre(gs);
    var hs := LineBands.Heights(gs);
    if hs != [] {
      MedianIsMiddle(hs);
    }
    hide LineBands.Heights, LineBands.Median, Filter, Middle;
  }

  /** Two words are parted by more than the given share of the middle glyph width, of 1.0 when no glyph has a width. */
  lemma {:induction false} WordGapIsShareOfWidth(gs: seq<Glyph>, ratio: real)
    ensures if Filter(gs, Wide) == [] then LineText.GapThreshold(gs, ratio) == ratio
      else exists ws, m ::
        AreWidths(ws, Filter(gs, Wide)) && Middle(ws, m) && LineText.GapThreshold(gs, ratio) == m * ratio
  {
    hide *;
    WidthsAre(gs);
    SameLength(LineText.Widths(gs), Filter(gs, Wide));
    GapIs(gs, ratio);
    var ws := LineText.Widths(gs);
    if ws != [] {
      MedianIsMiddle(ws);
    }
  }

  lemma SameLength(ws: seq<real>, gs: seq<Glyph>)
    requires AreWidths(ws, gs)
    ensures ws == [] <==> gs == []
  {
  }

  lemma GapIs(gs: seq<Glyph>, ratio: real)
    ensures LineText.GapThreshold(gs, ratio)
         == if LineText.Widths(gs) == [] then ratio else LineBands.Median(LineText.Widths(gs)) * ratio
  {
  }

  // ----- reading order

  ghost predicate LeftFirst(line: seq<Glyph>) {
    forall i, j :: 0 <= i < j < |line| ==> line[i].x0 <= line[j].x0
  }

  /** All centres of a line lie within `tol` below that of one of its glyphs, its top. */
  ghost predicate LineAt(line: seq<Glyph>, top: Glyph, tol: real) {
    && top in line
    && forall g :: g in line ==> 0.0 <= MidY(top) - MidY(g) <= tol
  }

  lemma {:induction false} BandsReadingIs(bands: seq<seq<Glyph>>) returns (lines: seq<seq<Glyph>>)
    ensures BandsReading(bands) == Flat(lines) && |lines| == |bands|
    ensures forall k :: 0 <= k < |lines| ==> lines[k] == LeftToRight(bands[k])
  {
    if bands == [] {
      lines := [];
    } else {
      var rest := BandsReadingIs(bands[1..]);
      lines := [LeftToRight(bands[0])] + rest;
      assert lines[1..] == rest;
    }
  }

  lemma {:induction false} SortedLine(band: seq<Glyph>)
    ensures LeftFirst(LeftToRight(band)) && multiset(LeftToRight(band)) == multiset(band)
    ensures forall g :: g in LeftToRight(band) <==> g in band
  {
    SortFacts(band, X0);
    var s := LeftToRight(band);
    forall i, j | 0 <= i < j < |s| ensures s[i].x0 <= s[j].x0 {
      assert X0(s[i]) <= X0(s[j]);
    }
  }

  /**
   * A column is read line by line: the lines share out its glyphs, each runs from left to right, its centres lie within
   * the tolerance of its top, and the tops descend by more than the tolerance.
   */
  lemma {:induction false} ColumnReadsInLines(col: seq<Glyph>) returns (lines: seq<seq<Glyph>>, tops: seq<Glyph>)
    ensures ColumnReading(col) == Flat(lines) && multiset(Flat(lines)) == multiset(col)
    ensures |tops| == |lines|
    ensures forall k :: 0 <= k < |lines| ==> LeftFirst(lines[k]) && LineAt(lines[k], tops[k], LineBands.LineTolerance(col))
    ensures forall i, j :: 0 <= i < j < |tops| ==> MidY(tops[i]) - MidY(tops[j]) > LineBands.LineTolerance(col)
  {
    hide LineBands.LineTolerance, LineBands.Bands, LineBands.Leaders, BandsReading, LeftToRight, MidY, LeftFirst;
    var tol, gs := LineBands.LineTolerance(col), LineBands.Ordered(col);
    var bands := LineBands.Bands(gs, tol);
    LineBands.TolerancePositive(col);
    LineBands.OrderedFacts(col);
    LineBands.LeadersLead(gs, tol);
    LineBands.LeadersApart(gs, tol);
    ColumnReadingPermutes(col);
    lines := BandsReadingIs(bands);
    tops := LineBands.Leaders(gs, tol);
    forall k | 0 <= k < |lines| ensures LeftFirst(lines[k]) && LineAt(lines[k], tops[k], tol) {
      SortedLine(bands[k]);
      BandAt(gs, tol, k);
    }
  }

  lemma {:induction false} BandAt(gs: seq<Glyph>, tol: real, k: nat)
    requires LineBands.Descending(gs) && tol >= 0.0 && k < |LineBands.Bands(gs, tol)|
    ensures k < |LineBands.Leaders(gs, tol)|
    ensures var band, top := LineBands.Bands(gs, tol)[k], LineBands.Leaders(gs, tol)[k];
      top in band && forall g :: g in band ==> 0.0 <= MidY(top) - MidY(g) <= tol
  {
    hide LineBands.Bands, LineBands.Leaders, MidY;
    LineBands.BandsNone(tol);
    LineBands.LeadersLead(gs, tol);
    var band := LineBands.Bands(gs, tol)[k];
    forall g | g in band ensures 0.0 <= MidY(band[0]) - MidY(g) <= tol {
      LineBands.BandSpread(gs, tol, k, g);
    }
  }

  // ----- which columns are kept

  /** Distance from the leftmost left edge to the rightmost right edge. */
  ghost predicate IsSpan(gs: seq<Glyph>, span: real) {
    exists a, b :: a in gs && b in gs && span == b.x1 - a.x0 && forall g :: g in gs ==> a.x0 <= g.x0 && g.x1 <= b.x1
  }

  function Centre(g: Glyph): real { (g.y0 + g.y1) / 2.0 }

  /** Distance from the lowest to the highest centre. */
  ghost predicate IsSpread(gs: seq<Glyph>, spread: real) {
    exists a, b :: a in gs && b in gs && spread == Centre(a) - Centre(b)
      && forall g :: g in gs ==> Centre(b) <= Centre(g) <= Centre(a)
  }

  /** At most two characters. */
  predicate Short(ln: Line) { |ln.text| <= 2 }

  /** At least `percent` per cent of the lines are short. */
  ghost predicate MostlyShort(lines: seq<Line>, percent: int) {
    lines != [] && 100 * |Filter(lines, Short)| >= percent * |lines|
  }

  /** Narrower than its share of the page, and at least 45% short lines. */
  ghost predicate MarginStrip(cfg: Config, gs: seq<Glyph>, width: real) {
    && (exists span :: IsSpan(gs, span) && span < cfg.marginRatio * width)
    && MostlyShort(LinesOf(cfg, gs), 45)
  }

  /** At least eight glyphs, more than three and a half times as tall as wide, and at least 35% short lines. */
  ghost predicate VerticalStack(cfg: Config, gs: seq<Glyph>) {
    && |gs| >= 8
    && (exists span, spread :: IsSpan(gs, span) && IsSpread(gs, spread) && 2.0 * spread > 7.0 * span)
    && MostlyShort(LinesOf(cfg, gs), 35)
  }

  ghost predicate HasSpan(gs: seq<Glyph>) {
    exists span :: IsSpan(gs, span) && span > 0.0
  }

  /** A column of the reading order. */
  ghost predicate Readable(cfg: Config, gs: seq<Glyph>, width: real) {
    width > 0.0 && HasSpan(gs) && !MarginStrip(cfg, gs, width) && !VerticalStack(cfg, gs)
  }

  lemma {:induction false} EdgesAre(gs: seq<Glyph>) returns (a: Glyph, b: Glyph)
    requires gs != []
    ensures a in gs && b in gs && a.x0 == LeftEdge(gs) && b.x1 == RightEdge(gs)
    ensures forall g :: g in gs ==> a.x0 <= g.x0 && g.x1 <= b.x1
  {
    if |gs| == 1 {
      a, b := gs[0], gs[0];
    } else {
      var c, d := EdgesAre(gs[1..]);
      assert gs == [gs[0]] + gs[1..];
      a := if gs[0].x0 <= c.x0 then gs[0] else c;
      b := if gs[0].x1 >= d.x1 then gs[0] else d;
    }
  }

  lemma {:induction false} SpanIs(gs: seq<Glyph>, span: real)
    requires gs != []
    ensures IsSpan(gs, span) <==> span == ColumnSpan(gs)
  {
    var a, b := EdgesAre(gs);
  }

  lemma {:induction false} SpreadIs(gs: seq<Glyph>, spread: real)
    requires gs != []
    ensures IsSpread(gs, spread) <==> spread == Tallness(gs)
  {
    var a, b := TopAndBottom(gs);
    hide Tallness;
    if IsSpread(gs, spread) {
      var c, d :| c in gs && d in gs && spread == Centre(c) - Centre(d)
        && forall g :: g in gs ==> Centre(d) <= Centre(g) <= Centre(c);
    }
  }

  lemma TopAndBottom(gs: seq<Glyph>) returns (a: Glyph, b: Glyph)
    requires gs != []
    ensures a in gs && b in gs && Tallness(gs) == Centre(a) - Centre(b)
    ensures forall g :: g in gs ==> Centre(b) <= Centre(g) <= Centre(a)
  {
    LineBands.OrderedFacts(gs);
    var s := LineBands.Ordered(gs);
    SortFacts(gs, LineBands.Downward);
    hide SortBy;
    a, b := s[0], s[|s| - 1];
    assert a in s && b in s;
    forall g | g in gs ensures Centre(b) <= Centre(g) <= Centre(a) {
      assert g in s;
      var i :| 0 <= i < |s| && s[i] == g;
      assert MidY(s[0]) >= MidY(s[i]) >= MidY(s[|s| - 1]);
    }
  }

  lemma {:induction false} ShortCount(lines: seq<Line>)
    ensures |Filter(lines, Short)| == ShortLines(lines)
  {
    if lines != [] {
      ShortCount(lines[1..]);
    }
  }

  lemma {:induction false} FractionAtLeast(lines: seq<Line>, percent: int)
    requires percent > 0
    ensures ShortFraction(lines) >= percent as real / 100.0 <==> MostlyShort(lines, percent)
  {
    ShortCount(lines);
    if lines != [] {
      var m, n := ShortLines(lines) as real, |lines| as real;
      Ratio(m, n, percent as real / 100.0);
      assert (percent as real / 100.0) * n == (percent * |lines|) as real / 100.0;
    }
  }

  lemma Ratio(m: real, n: real, p: real)
    requires n > 0.0
    ensures m / n >= p <==> m >= p * n
    ensures m / n < p <==> m < p * n
  {
    assert m == (m / n) * n;
  }

  lemma {:induction false} MarginIff(cfg: Config, gs: seq<Glyph>, width: real)
    requires gs != [] && width > 0.0
    ensures MarginStrip(cfg, gs, width) <==>
      ColumnSpan(gs) / width < cfg.marginRatio && ShortFraction(LinesOf(cfg, gs)) >= 0.45
  {
    hide IsSpan, MostlyShort, ShortFraction, ColumnSpan, LinesOf;
    var span := ColumnSpan(gs);
    forall x ensures IsSpan(gs, x) <==> x == span {
      SpanIs(gs, x);
    }
    assert IsSpan(gs, span);
    FractionAtLeast(LinesOf(cfg, gs), 45);
    Ratio(span, width, cfg.marginRatio);
  }

  lemma {:induction false} StackIff(cfg: Config, gs: seq<Glyph>)
    requires gs != []
    ensures VerticalStack(cfg, gs) <==>
      Tallness(gs) > ColumnSpan(gs) * 3.5 && |gs| >= 8 && ShortFraction(LinesOf(cfg, gs)) >= 0.35
  {
    hide IsSpan, IsSpread, MostlyShort, ShortFraction, ColumnSpan, Tallness, LinesOf;
    var span, spread := ColumnSpan(gs), Tallness(gs);
    forall x ensures IsSpan(gs, x) <==> x == span {
      SpanIs(gs, x);
    }
    forall x ensures IsSpread(gs, x) <==> x == spread {
      SpreadIs(gs, x);
    }
    assert IsSpan(gs, span) && IsSpread(gs, spread);
    FractionAtLeast(LinesOf(cfg, gs), 35);
  }

  /** The code's test for an artifact, on span, spread and short lines. */
  lemma {:induction false} ArtifactIff(cfg: Config, gs: seq<Glyph>, width: real)
    ensures ArtifactColumn(cfg, gs, width) <==> !Readable(cfg, gs, width)
  {
    if gs != [] && width > 0.0 {
      MarginIff(cfg, gs, width);
      StackIff(cfg, gs);
      SpanIs(gs, ColumnSpan(gs));
      forall x | IsSpan(gs, x) ensures x == ColumnSpan(gs) {
        SpanIs(gs, x);
      }
    }
    hide IsSpan, MarginStrip, VerticalStack, ShortFraction, ColumnSpan, Tallness, LinesOf;
  }

  lemma {:induction false} WidestIs(cols: seq<seq<Glyph>>) returns (k: nat)
    requires cols != []
    ensures k < |cols| && Widest(cols) == cols[k]
    ensures forall j :: 0 <= j < |cols| ==> ColumnSpan(cols[j]) <= ColumnSpan(cols[k])
    ensures forall j :: 0 <= j < k ==> ColumnSpan(cols[j]) < ColumnSpan(cols[k])
  {
    hide ColumnSpan;
    if |cols| == 1 {
      k := 0;
    } else {
      var m := WidestIs(cols[1..]);
      k := if ColumnSpan(cols[0]) >= ColumnSpan(cols[1..][m]) then 0 else m + 1;
      assert forall j :: 0 < j < |cols| ==> cols[j] == cols[1..][j - 1];
    }
  }

  /** The first column of the largest span. */
  ghost predicate FirstWidest(cols: seq<seq<Glyph>>, k: int) {
    && 0 <= k < |cols|
    && forall j, s, t :: 0 <= j < |cols| && IsSpan(cols[j], s) && IsSpan(cols[k], t) ==> if j < k then s < t else s <= t
  }

  ghost function Reader(cfg: Config, width: real): seq<Glyph> -> bool {
    (c: seq<Glyph>) => Readable(cfg, c, width)
  }

  /** The readable columns are kept, each once, in the order of the split; when there is none, the first widest one. */
  lemma {:induction false} KeptExactly(cfg: Config, chars: seq<Glyph>, scale: real, width: real)
    requires chars != []
    ensures var cols, kept := Columns.PageColumns(chars, scale, width), FilterReadingColumns(cfg, chars, scale, width);
      if exists c :: c in cols && Readable(cfg, c, width) then kept == Filter(cols, Reader(cfg, width))
      else exists k :: FirstWidest(cols, k) && kept == [cols[k]]
  {
    hide Columns.SplitColumns, ArtifactColumn, Readable;
    var cols := Columns.PageColumns(chars, scale, width);
    var wanted := (c: seq<Glyph>) => !ArtifactColumn(cfg, c, width);
    forall c ensures wanted(c) <==> Reader(cfg, width)(c) {
      ArtifactIff(cfg, c, width);
    }
    FilterSame(cols, wanted, Reader(cfg, width));
    FilterIn(cols, wanted);
    if c :| c in cols && Readable(cfg, c, width) {
      assert c in Filter(cols, wanted);
    } else {
      NoneRead(cfg, chars, scale, width);
    }
  }

  lemma {:induction false} NoneRead(cfg: Config, chars: seq<Glyph>, scale: real, width: real)
    requires chars != []
    requires var cols := Columns.PageColumns(chars, scale, width); forall c :: c in cols ==> !Readable(cfg, c, width)
    ensures var cols, kept := Columns.PageColumns(chars, scale, width), FilterReadingColumns(cfg, chars, scale, width);
      exists k :: FirstWidest(cols, k) && kept == [cols[k]]
  {
    hide Columns.SplitColumns, ArtifactColumn, Readable, FirstWidest;
    var cols := Columns.PageColumns(chars, scale, width);
    var wanted := (c: seq<Glyph>) => !ArtifactColumn(cfg, c, width);
    KeptColumns(cfg, chars, scale, width);
    forall c | c in cols ensures !wanted(c) {
      ArtifactIff(cfg, c, width);
    }
    FilterNone(cols, wanted);
    ColumnsFilled(chars, scale, width);
    var k := WidestIs(cols);
    WidestFirst(cols, k);
    assert |cols| == 1 ==> cols == [cols[0]];
  }

  lemma {:induction false} ColumnsFilled(chars: seq<Glyph>, scale: real, width: real)
    requires chars != []
    ensures var cols := Columns.PageColumns(chars, scale, width);
      cols != [] && forall c :: c in cols ==> c != []
  {
    Columns.ColumnsPartition(chars, Columns.MinGap(scale, width), 0);
    hide Columns.SplitColumns;
    Columns.SharesSome(Columns.PageColumns(chars, scale, width), chars);
  }

  lemma {:induction false} WidestFirst(cols: seq<seq<Glyph>>, k: nat)
    requires k < |cols| && forall c :: c in cols ==> c != []
    requires forall j :: 0 <= j < |cols| ==> ColumnSpan(cols[j]) <= ColumnSpan(cols[k])
    requires forall j :: 0 <= j < k ==> ColumnSpan(cols[j]) < ColumnSpan(cols[k])
    ensures FirstWidest(cols, k)
  {
    hide IsSpan, ColumnSpan;
    forall j, s, t | 0 <= j < |cols| && IsSpan(cols[j], s) && IsSpan(cols[k], t)
      ensures if j < k then s < t else s <= t
    {
      assert cols[j] in cols && cols[k] in cols;
      SpanIs(cols[j], s);
      SpanIs(cols[k], t);
    }
  }

  /** A column of the full share of the page, more than 65% of whose lines are longer than two characters, is never dropped. */
  lemma {:induction false} BodyColumnStays(cfg: Config, chars: seq<Glyph>, scale: real, width: real, col: seq<Glyph>, span: real)
    requires chars != [] && col in Columns.PageColumns(chars, scale, width)
    requires width > 0.0 && IsSpan(col, span) && span > 0.0 && span >= cfg.marginRatio * width
    requires 100 * |Filter(LinesOf(cfg, col), Short)| < 35 * |LinesOf(cfg, col)|
    ensures col in FilterReadingColumns(cfg, chars, scale, width)
  {
    hide Columns.SplitColumns, IsSpan, IsSpread, LinesOf, FilterReadingColumns;
    ColumnsFilled(chars, scale, width);
    forall x ensures IsSpan(col, x) ==> x == span {
      SpanIs(col, x);
      SpanIs(col, span);
    }
    assert Readable(cfg, col, width);
    KeptExactly(cfg, chars, scale, width);
    FilterIn(Columns.PageColumns(chars, scale, width), Reader(cfg, width));
  }

  // ----- attached punctuation

  lemma {:induction false} MergeSnoc(merged: seq<Line>, lines: seq<Line>, ln: Line)
    ensures MergeFrom(merged, lines + [ln]) == MergeLine(MergeFrom(merged, lines), ln)
    decreases |lines|
  {
    hide MergeLine;
    if lines == [] {
      assert lines + [ln] == [ln] && [ln][1..] == [];
    } else {
      assert (lines + [ln])[1..] == lines[1..] + [ln];
      MergeSnoc(MergeLine(merged, lines[0]), lines[1..], ln);
    }
  }

  /** The text of a line to which the others were attached one by one. */
  function Grown(group: seq<Line>): string
    requires group != []
  {
    var n := |group| - 1;
    if n == 0 then group[0].text else Attach(Grown(group[..n]), Strip(group[n].text))
  }

  /** A line followed by bare punctuation. */
  ghost predicate Trailed(group: seq<Line>) {
    group != [] && forall j :: 0 < j < |group| ==> Orphan(Strip(group[j].text))
  }

  /** The merged lines are groups of the given ones: each a line and the bare punctuation after it. */
  ghost predicate MergedFrom(merged: seq<Line>, groups: seq<seq<Line>>) {
    && |merged| == |groups|
    && forall k :: 0 <= k < |groups| ==>
      && Trailed(groups[k]) && merged[k] == Line(Grown(groups[k]), groups[k][0].h)
      && (k > 0 ==> !Orphan(Strip(groups[k][0].text)))
  }

  lemma MergedMore(merged: seq<Line>, groups: seq<seq<Line>>, ln: Line) returns (more: seq<seq<Line>>)
    requires MergedFrom(merged, groups)
    ensures MergedFrom(MergeLine(merged, ln), more) && Flat(more) == Flat(groups) + [ln]
  {
    hide Strip, Orphan, MergedFrom, Trailed, Grown;
    if merged != [] && Orphan(Strip(ln.text)) {
      SameNumber(merged, groups);
      more := groups[..|groups| - 1] + [groups[|groups| - 1] + [ln]];
      LastTrailed(merged, groups, ln);
      FlatLast(groups, ln);
    } else {
      more := groups + [[ln]];
      GroupStarted(merged, groups, ln);
      FlatAppend(groups, [[ln]]);
      FlatOne([ln]);
    }
  }

  lemma SameNumber(merged: seq<Line>, groups: seq<seq<Line>>)
    requires MergedFrom(merged, groups)
    ensures |merged| == |groups|
  {
  }

  lemma GroupStarted(merged: seq<Line>, groups: seq<seq<Line>>, ln: Line)
    requires MergedFrom(merged, groups) && (merged != [] ==> !Orphan(Strip(ln.text)))
    ensures MergedFrom(merged + [ln], groups + [[ln]])
  {
    hide Strip, Orphan;
    assert Trailed([ln]) && Grown([ln]) == ln.text;
    hide Trailed, Grown;
  }

  lemma LastTrailed(merged: seq<Line>, groups: seq<seq<Line>>, ln: Line)
    requires MergedFrom(merged, groups) && merged != [] && |merged| == |groups| && Orphan(Strip(ln.text))
    ensures var n := |groups| - 1;
      MergedFrom(MergeLine(merged, ln), groups[..n] + [groups[n] + [ln]])
  {
    hide Strip, Orphan, Attach;
    var n := |groups| - 1;
    assert Trailed(groups[n]);
    GroupGrows(groups[n], ln);
    hide Trailed, Grown;
    var more := groups[..n] + [groups[n] + [ln]];
    var next := MergeLine(merged, ln);
    forall k | 0 <= k < |more|
      ensures Trailed(more[k]) && next[k] == Line(Grown(more[k]), more[k][0].h)
      ensures k > 0 ==> !Orphan(Strip(more[k][0].text))
    {
      if k < n {
        assert more[k] == groups[k] && next[k] == merged[k];
      }
    }
  }

  lemma GroupGrows(group: seq<Line>, ln: Line)
    requires Trailed(group) && Orphan(Strip(ln.text))
    ensures var last := group + [ln];
      Trailed(last) && last[0] == group[0] && Grown(last) == Attach(Grown(group), Strip(ln.text))
  {
    hide Strip, Orphan, Attach;
    assert (group + [ln])[..|group|] == group;
  }

  lemma FlatLast<T(!new)>(groups: seq<seq<T>>, x: T)
    requires groups != []
    ensures var n := |groups| - 1; Flat(groups[..n] + [groups[n] + [x]]) == Flat(groups) + [x]
  {
    hide Flat;
    var n := |groups| - 1;
    var front, last := groups[..n], groups[n];
    assert groups == front + [last];
    FlatAppend(front, [last]);
    FlatAppend(front, [last + [x]]);
    FlatOne(last);
    FlatOne(last + [x]);
    Regroup(Flat(front), last, [x]);
  }

  lemma FlatOne<T(!new)>(s: seq<T>)
    ensures Flat([s]) == s
  {
    assert [s][1..] == [];
    assert Flat([s]) == s + Flat([s][1..]);
  }

  /** Merging attaches to a line exactly the bare punctuation that follows it, and keeps the line's height. */
  lemma {:induction false} MergedInGroups(lines: seq<Line>) returns (groups: seq<seq<Line>>)
    ensures Flat(groups) == lines && MergedFrom(MergeOrphans(lines), groups)
  {
    hide *;
    groups := [];
    NothingMerged();
    if lines != [] {
      var n := |lines| - 1;
      var init := MergedInGroups(lines[..n]);
      assert lines == lines[..n] + [lines[n]];
      MergeOrphansSnoc(lines[..n], lines[n]);
      groups := MergedMore(MergeOrphans(lines[..n]), init, lines[n]);
    }
  }

  lemma NothingMerged()
    ensures MergeOrphans([]) == [] && MergedFrom([], []) && Flat<Line>([]) == []
  {
  }

  lemma MergeOrphansSnoc(lines: seq<Line>, ln: Line)
    ensures MergeOrphans(lines + [ln]) == MergeLine(MergeOrphans(lines), ln)
  {
    MergeSnoc([], lines, ln);
  }

  /** What counts as bare punctuation: one to four characters, each white space or one of these. */
  lemma {:induction false} OrphanIff(t: string)
    ensures Orphan(t) <==> 1 <= |t| <= 4 && forall k :: 0 <= k < |t| ==>
      || IsSpace(t[k]) || t[k] == '.' || t[k] == ',' || t[k] == ';' || t[k] == ':' || t[k] == '!' || t[k] == '?'
      || t[k] == '\U{2026}' || t[k] == '\U{b7}'
  {
    hide IsSpace;
  }

  lemma {:induction false} StripFixed(s: string)
    requires s != "" && !IsSpace(s[0]) && !IsSpace(s[|s| - 1])
    ensures Strip(s) == s
  {
  }

  /** Attached punctuation follows the line directly, after a space only where the line ends in a hyphen. */
  lemma {:induction false} AttachedDirectly(prev: string, t: string)
    requires prev != "" && !IsSpace(prev[0]) && !IsSpace(prev[|prev| - 1])
    requires t != "" && !IsSpace(t[0]) && !IsSpace(t[|t| - 1])
    ensures Attach(prev, t) == if prev[|prev| - 1] == '-' then prev + " " + t else prev + Visible(t)
  {
    hide Strip;
    InkSeen(t);
    var spaced := prev + " " + t;
    assert spaced[0] == prev[0] && spaced[|spaced| - 1] == t[|t| - 1];
    StripFixed(spaced);
  }

  /** Attached to an empty line it stands alone. */
  lemma AttachedToNothing(t: string)
    requires t != "" && !IsSpace(t[0]) && !IsSpace(t[|t| - 1])
    ensures Attach("", t) == t
  {
    var spaced := " " + t;
    assert "" + " " + t == spaced && spaced[1..] == t;
    assert LStripBy(spaced, IsSpace) == LStripBy(t, IsSpace);
    StripFixed(t);
  }

  lemma {:induction false} InkSeen(t: string)
    requires t != "" && !IsSpace(t[0])
    ensures Visible(t) != ""
  {
  }

  // ----- headings

  /** Ends in one of these marks, or is empty. */
  predicate EndsSentence(s: string) {
    s == "" ||
      var c := s[|s| - 1];
      || c == '.' || c == ',' || c == ';' || c == ':' || c == '!' || c == '?'
      || c == '\U{3002}' || c == '\U{ff0c}' || c == '\U{ff1b}' || c == '\U{ff1a}' || c == '\U{ff01}' || c == '\U{ff1f}'
  }

  /** Allowed to be a heading, and at least 1.35 times as high as the body. */
  predicate HeadingLike(cfg: Config, ln: Line, body: real) {
    && cfg.detectHeadings && body > 0.0
    && cfg.minHeadingChars <= |ln.text| <= 80
    && !EndsSentence(ln.text)
    && 100.0 * ln.h >= 135.0 * body
  }

  lemma {:induction false} LevelIs(cfg: Config, ln: Line, body: real)
    ensures Level(cfg, ln, body) == 0 <==> !HeadingLike(cfg, ln, body)
    ensures HeadingLike(cfg, ln, body) ==>
      Level(cfg, ln, body) == if ln.h >= 2.0 * body then 1 else if 10.0 * ln.h >= 16.0 * body then 2 else 3
  {
    if body > 0.0 {
      Ratio(ln.h, body, 2.0);
      Ratio(ln.h, body, 1.6);
      Ratio(ln.h, body, 1.35);
    }
  }

  function Candidate(cfg: Config, body: real): Line -> bool {
    (ln: Line) => HeadingLike(cfg, ln, body)
  }

  lemma {:induction false} CandidatesCounted(cfg: Config, lines: seq<Line>, body: real)
    ensures Headings(RenderAll(cfg, lines, body)) == |Filter(lines, Candidate(cfg, body))|
  {
    hide Level, HeadingLike;
    if lines != [] {
      LevelIs(cfg, lines[0], body);
      CandidatesCounted(cfg, lines[1..], body);
      assert RenderAll(cfg, lines, body)[1..] == RenderAll(cfg, lines[1..], body);
    }
  }

  lemma {:induction false} RenderedAt(cfg: Config, lines: seq<Line>, body: real)
    ensures var rs := RenderAll(cfg, lines, body);
      && |rs| == |Flattened(rs)| == |lines|
      && (forall k :: 0 <= k < |lines| ==> rs[k] == Rendered(Level(cfg, lines[k], body), lines[k].text))
      && (forall k :: 0 <= k < |lines| ==> Flattened(rs)[k] == Rendered(0, lines[k].text))
  {
    hide Level;
    if lines != [] {
      RenderedAt(cfg, lines[1..], body);
      assert RenderAll(cfg, lines, body)[1..] == RenderAll(cfg, lines[1..], body);
    }
  }

  ghost predicate AreLineHeights(hs: seq<real>, lines: seq<Line>) {
    |hs| == |lines| && forall k :: 0 <= k < |hs| ==> hs[k] == lines[k].h
  }

  lemma {:induction false} LineHeightsAre(lines: seq<Line>)
    ensures AreLineHeights(LineHeights(lines), lines)
  {
    if lines != [] {
      LineHeightsAre(lines[1..]);
    }
  }

  /**
   * Measured by the middle line height of the column, all lines that qualify become headings of their level, unless they
   * are more than one and more than two fifths of the lines: then none does. The texts stay in either case.
   */
  lemma {:induction false} HeadingsAre(cfg: Config, lines: seq<Line>) returns (body: real)
    requires lines != []
    ensures exists hs :: AreLineHeights(hs, lines) && Middle(hs, body)
    ensures |RenderLines(cfg, lines)| == |lines|
    ensures var n := |Filter(lines, Candidate(cfg, body))|;
      forall k :: 0 <= k < |lines| ==>
        RenderLines(cfg, lines)[k]
          == Rendered(if n <= 1 || 5 * n <= 2 * |lines| then Level(cfg, lines[k], body) else 0, lines[k].text)
  {
    body := LineBands.Median(LineHeights(lines));
    LineHeightsAre(lines);
    assert LineHeights(lines) != [];
    MedianIsMiddle(LineHeights(lines));
    hide LineHeights, LineBands.Median, Level, RenderAll, Flattened, Filter, Middle;
    RenderedAt(cfg, lines, body);
    CandidatesCounted(cfg, lines, body);
  }

  /** A heading is marked by as many `#` as its level. */
  lemma HeadingMarks(text: string)
    ensures RenderLine(Rendered(0, text)) == text
    ensures RenderLine(Rendered(1, text)) == "# " + text
    ensures RenderLine(Rendered(2, text)) == "## " + text
    ensures RenderLine(Rendered(3, text)) == "### " + text
  {
    assert Hashes(1) == "#" && Hashes(2) == "##" && Hashes(3) == "###";
    assert "#" + " " == "# " && "##" + " " == "## " && "###" + " " == "### ";
  }
}
