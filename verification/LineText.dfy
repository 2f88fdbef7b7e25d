/** Joining one visual line's glyphs; word spaces come from horizontal gaps. */
module LineText {
  import opened Glyphs
  import opened Seqs
  import opened Text
  import LineBands

  function WidthOf(g: Glyph): real { g.x1 - g.x0 }

  function Widths(gs: seq<Glyph>): seq<real> {
    if gs == [] then [] else (if WidthOf(gs[0]) > 0.0 then [WidthOf(gs[0])] else []) + Widths(gs[1..])
  }

  /** A gap wider than this between two glyphs separates words. */
  function GapThreshold(gs: seq<Glyph>, ratio: real): real {
    (if Widths(gs) == [] then 1.0 else LineBands.Median(Widths(gs))) * ratio
  }

  predicate EndsWith(s: string, c: char) {
    s != "" && s[|s| - 1] == c
  }

  predicate WideGap(a: Glyph, b: Glyph, threshold: real) {
    b.x0 - a.x1 > threshold
  }

  /** The pieces gathered from the first `n` glyphs. */
  function Parts(gs: seq<Glyph>, threshold: real, n: nat): seq<string>
    requires n <= |gs|
  {
    if n == 0 then [] else
      var parts := Parts(gs, threshold, n - 1);
      var ch := gs[n - 1].ch;
      if n == 1 then parts + [ch]
      else if Blank(ch) || Blank(gs[n - 2].ch) then
        if !Blank(ch) || (parts != [] && !EndsWith(parts[|parts| - 1], ' ')) then parts + [ch] else parts
      else if WideGap(gs[n - 2], gs[n - 1], threshold) then parts + [" ", ch]
      else parts + [ch]
  }

  function JoinLineGlyphs(gs: seq<Glyph>, ratio: real): string {
    Strip(Flat(Parts(gs, GapThreshold(gs, ratio), |gs|)))
  }

  method JoinLine(gs: seq<Glyph>, ratio: real) returns (text: string)
    ensures text == JoinLineGlyphs(gs, ratio)
  {
    if gs == [] {
      return "";
    }
    hide Flat, Strip;
    var threshold := GapThreshold(gs, ratio);
    hide GapThreshold, Blank, EndsWith, Parts;
    var parts: seq<string> := [];
    NoParts(gs, threshold);
    for i := 0 to |gs|
      invariant parts == Parts(gs, threshold, i)
    {
      PartsStep(gs, threshold, i);
      var ch := gs[i].ch;
      if i == 0 {
        parts := parts + [ch];
      } else {
        var prev := gs[i - 1];
        if Blank(ch) || Blank(prev.ch) {
          if !Blank(ch) || (parts != [] && !EndsWith(parts[|parts| - 1], ' ')) {
            parts := parts + [ch];
          }
        } else {
          if gs[i].x0 - prev.x1 > threshold {
            parts := parts + [" "];
          }
          parts := parts + [ch];
        }
      }
    }
    text := Strip(Flat(parts));
  }

  lemma NoParts(gs: seq<Glyph>, threshold: real)
    ensures Parts(gs, threshold, 0) == []
  {
  }

  lemma PartsStep(gs: seq<Glyph>, threshold: real, i: nat)
    requires i < |gs|
    ensures var parts, ch := Parts(gs, threshold, i), gs[i].ch;
      Parts(gs, threshold, i + 1) ==
        if i == 0 then parts + [ch]
        else if Blank(ch) || Blank(gs[i - 1].ch) then
          if !Blank(ch) || (parts != [] && !EndsWith(parts[|parts| - 1], ' ')) then parts + [ch] else parts
        else if gs[i].x0 - gs[i - 1].x1 > threshold then parts + [" "] + [ch]
        else parts + [ch]
  {
    hide Blank, EndsWith;
    assert Parts(gs, threshold, i) + [" "] + [gs[i].ch] == Parts(gs, threshold, i) + [" ", gs[i].ch];
  }

  // ----- conservation

  function GlyphText(gs: seq<Glyph>): string {
    if gs == [] then "" else gs[0].ch + GlyphText(gs[1..])
  }

  lemma {:induction false} GlyphTextAppend(a: seq<Glyph>, b: seq<Glyph>)
    ensures GlyphText(a + b) == GlyphText(a) + GlyphText(b)
  {
    if a == [] {
      assert a + b == b;
    } else {
      assert (a + b)[1..] == a[1..] + b;
      GlyphTextAppend(a[1..], b);
    }
  }

  lemma {:induction false} FlatOne(parts: seq<string>, x: string)
    ensures Flat(parts + [x]) == Flat(parts) + x
  {
    FlatAppend(parts, [x]);
    assert Flat([x]) == x + Flat([x][1..]);
  }

  /** What glyph `n - 1` contributes. */
  function Added(gs: seq<Glyph>, threshold: real, n: nat): string
    requires 1 <= n <= |gs|
  {
    var parts := Parts(gs, threshold, n - 1);
    var ch := gs[n - 1].ch;
    if n == 1 then ch
    else if Blank(ch) || Blank(gs[n - 2].ch) then
      if !Blank(ch) || (parts != [] && !EndsWith(parts[|parts| - 1], ' ')) then ch else ""
    else if WideGap(gs[n - 2], gs[n - 1], threshold) then " " + ch
    else ch
  }

  lemma {:induction false} PartsAdd(gs: seq<Glyph>, threshold: real, n: nat)
    requires 1 <= n <= |gs|
    ensures Flat(Parts(gs, threshold, n)) == Flat(Parts(gs, threshold, n - 1)) + Added(gs, threshold, n)
  {
    var parts := Parts(gs, threshold, n - 1);
    var ch := gs[n - 1].ch;
    hide Flat;
    FlatOne(parts, ch);
    FlatOne(parts, " ");
    FlatOne(parts + [" "], ch);
    assert parts + [" ", ch] == parts + [" "] + [ch];
    assert Flat(parts) + " " + ch == Flat(parts) + (" " + ch);
  }

  lemma {:induction false} AddedVisible(gs: seq<Glyph>, threshold: real, n: nat)
    requires 1 <= n <= |gs|
    ensures Visible(Added(gs, threshold, n)) == Visible(gs[n - 1].ch)
  {
    var ch := gs[n - 1].ch;
    SpacedVisible(ch);
    hide Visible, Parts, EndsWith, WideGap, Blank;
  }

  lemma SpacedVisible(ch: string)
    ensures Visible(" " + ch) == Visible(ch) && Visible("") == ""
    ensures Blank(ch) ==> Visible(ch) == ""
  {
    VisibleNone(" ");
    VisibleAppend(" ", ch);
    if Blank(ch) {
      VisibleNone(ch);
    }
    hide Visible, IsSpace;
    assert "" + Visible(ch) == Visible(ch);
  }

  lemma {:induction false} PartsConserve(gs: seq<Glyph>, threshold: real, n: nat)
    requires n <= |gs|
    ensures Visible(Flat(Parts(gs, threshold, n))) == Visible(GlyphText(gs[..n]))
  {
    if n > 0 {
      PartsConserve(gs, threshold, n - 1);
      PartsAdd(gs, threshold, n);
      AddedVisible(gs, threshold, n);
      GlyphTextSnoc(gs, n);
      hide Visible, Added, Parts, GlyphText;
      VisibleAppend(Flat(Parts(gs, threshold, n - 1)), Added(gs, threshold, n));
      VisibleAppend(GlyphText(gs[..n - 1]), gs[n - 1].ch);
    }
  }

  lemma {:induction false} GlyphTextSnoc(gs: seq<Glyph>, n: nat)
    requires 1 <= n <= |gs|
    ensures GlyphText(gs[..n]) == GlyphText(gs[..n - 1]) + gs[n - 1].ch
  {
    assert gs[..n] == gs[..n - 1] + [gs[n - 1]];
    GlyphTextAppend(gs[..n - 1], [gs[n - 1]]);
    assert GlyphText([gs[n - 1]]) == gs[n - 1].ch + GlyphText([gs[n - 1]][1..]) == gs[n - 1].ch;
  }

  /** The line shows exactly its glyphs' characters, once each and in order; only white space is added or dropped. */
  lemma {:induction false} JoinConserves(gs: seq<Glyph>, ratio: real)
    ensures Visible(JoinLineGlyphs(gs, ratio)) == Visible(GlyphText(gs))
  {
    var threshold := GapThreshold(gs, ratio);
    PartsConserve(gs, threshold, |gs|);
    assert gs[..|gs|] == gs;
    VisibleStrip(Flat(Parts(gs, threshold, |gs|)));
  }

  // ----- word boundaries

  predicate Inked(g: Glyph) {
    g.ch != "" && forall c :: c in g.ch ==> !IsSpace(c)
  }

  /** Maximal runs of glyphs with no wide gap inside. */
  function Words(gs: seq<Glyph>, threshold: real): (ws: seq<seq<Glyph>>)
    ensures gs != [] ==> ws != [] && ws[0] != [] && ws[0][0] == gs[0]
  {
    if gs == [] then []
    else if |gs| == 1 then [gs]
    else
      var rest := Words(gs[1..], threshold);
      if WideGap(gs[0], gs[1], threshold) then [[gs[0]]] + rest else [[gs[0]] + rest[0]] + rest[1..]
  }

  function WordTexts(ws: seq<seq<Glyph>>): seq<string> {
    if ws == [] then [] else [GlyphText(ws[0])] + WordTexts(ws[1..])
  }

  /** Line text written from the left: glyph, then a space if the next gap is wide. */
  function Spaced(gs: seq<Glyph>, threshold: real): string {
    if gs == [] then ""
    else if |gs| == 1 then gs[0].ch
    else gs[0].ch + (if WideGap(gs[0], gs[1], threshold) then " " else "") + Spaced(gs[1..], threshold)
  }

  lemma {:induction false} SpacedSnoc(gs: seq<Glyph>, g: Glyph, threshold: real)
    requires gs != []
    ensures Spaced(gs + [g], threshold)
         == Spaced(gs, threshold) + ((if WideGap(gs[|gs| - 1], g, threshold) then " " else "") + g.ch)
  {
    if |gs| == 1 {
      assert (gs + [g])[1..] == [g];
    } else {
      assert (gs + [g])[1..] == gs[1..] + [g];
      SpacedSnoc(gs[1..], g, threshold);
    }
  }

  lemma {:induction false} PartsSpaced(gs: seq<Glyph>, threshold: real, n: nat)
    requires 1 <= n <= |gs| && forall g :: g in gs ==> Inked(g)
    ensures Flat(Parts(gs, threshold, n)) == Spaced(gs[..n], threshold)
  {
    hide Inked, Parts, Spaced, Flat, Added, WideGap;
    if n == 1 {
      PartsSpacedOne(gs, threshold);
    } else {
      var pre, last := gs[..n - 1], gs[n - 1];
      PartsSpaced(gs, threshold, n - 1);
      PartsAdd(gs, threshold, n);
      AddedInked(gs, threshold, n);
      SpacedSnoc(pre, last, threshold);
      assert gs[..n] == pre + [last] && pre[|pre| - 1] == gs[n - 2];
    }
  }

  lemma {:induction false} PartsSpacedOne(gs: seq<Glyph>, threshold: real)
    requires 1 <= |gs|
    ensures Flat(Parts(gs, threshold, 1)) == Spaced(gs[..1], threshold)
  {
    PartsAdd(gs, threshold, 1);
    assert gs[..1] == [gs[0]];
    assert Flat(Parts(gs, threshold, 0)) == "";
  }

  lemma {:induction false} AddedInked(gs: seq<Glyph>, threshold: real, n: nat)
    requires 2 <= n <= |gs| && forall g :: g in gs ==> Inked(g)
    ensures Added(gs, threshold, n)
         == (if WideGap(gs[n - 2], gs[n - 1], threshold) then " " else "") + gs[n - 1].ch
  {
    assert Inked(gs[n - 1]) && Inked(gs[n - 2]);
    NotBlank(gs[n - 1]);
    NotBlank(gs[n - 2]);
  }

  lemma {:induction false} NotBlank(g: Glyph)
    requires Inked(g)
    ensures !Blank(g.ch)
  {
    assert g.ch[0] in g.ch;
  }

  lemma {:induction false} SpacedWords(gs: seq<Glyph>, threshold: real)
    requires gs != []
    ensures Spaced(gs, threshold) == Join(" ", WordTexts(Words(gs, threshold)))
  {
    var ws := Words(gs, threshold);
    if |gs| == 1 {
      assert GlyphText(gs) == gs[0].ch + GlyphText(gs[1..]) == gs[0].ch;
      assert ws[1..] == [];
    } else {
      SpacedWords(gs[1..], threshold);
      var rest := Words(gs[1..], threshold);
      assert ws[1..] == if WideGap(gs[0], gs[1], threshold) then rest else rest[1..];
      if WideGap(gs[0], gs[1], threshold) {
        assert GlyphText([gs[0]]) == gs[0].ch + GlyphText([gs[0]][1..]) == gs[0].ch;
        assert WordTexts(ws) == [gs[0].ch] + WordTexts(rest);
        assert ([gs[0].ch] + WordTexts(rest))[1..] == WordTexts(rest);
      } else {
        assert ([gs[0]] + rest[0])[1..] == rest[0];
        var t := WordTexts(rest);
        assert WordTexts(ws) == [gs[0].ch + t[0]] + t[1..];
        JoinPrefix(gs[0].ch, t);
      }
    }
  }

  lemma {:induction false} JoinPrefix(x: string, t: seq<string>)
    requires t != []
    ensures Join(" ", [x + t[0]] + t[1..]) == x + Join(" ", t)
  {
    assert ([x + t[0]] + t[1..])[1..] == t[1..];
    if |t| > 1 {
      assert (x + t[0]) + " " + Join(" ", t[1..]) == x + (t[0] + " " + Join(" ", t[1..]));
    }
  }

  lemma {:induction false} WordsFlatten(gs: seq<Glyph>, threshold: real)
    ensures Flat(Words(gs, threshold)) == gs
  {
    if |gs| == 1 {
      assert Flat([gs]) == gs + Flat([gs][1..]) == gs;
    } else if |gs| > 1 {
      var rest := Words(gs[1..], threshold);
      WordsFlatten(gs[1..], threshold);
      assert gs == [gs[0]] + gs[1..];
      assert ([[gs[0]]] + rest)[1..] == rest;
      assert ([[gs[0]] + rest[0]] + rest[1..])[1..] == rest[1..];
    }
  }

  /** Tight inside a word, a wide gap between two words. */
  ghost predicate WellCut(ws: seq<seq<Glyph>>, threshold: real) {
    && (forall k :: 0 <= k < |ws| ==> ws[k] != [])
    && (forall k, i :: 0 <= k < |ws| && 0 < i < |ws[k]| ==> !WideGap(ws[k][i - 1], ws[k][i], threshold))
    && (forall k :: 0 < k < |ws| ==> WideGap(ws[k - 1][|ws[k - 1]| - 1], ws[k][0], threshold))
  }

  lemma {:induction false} WellCutNew(g: Glyph, rest: seq<seq<Glyph>>, threshold: real)
    requires rest != [] && WellCut(rest, threshold) && WideGap(g, rest[0][0], threshold)
    ensures WellCut([[g]] + rest, threshold)
  {
  }

  lemma {:induction false} WellCutGrow(g: Glyph, rest: seq<seq<Glyph>>, threshold: real)
    requires rest != [] && WellCut(rest, threshold) && !WideGap(g, rest[0][0], threshold)
    ensures WellCut([[g] + rest[0]] + rest[1..], threshold)
  {
  }

  lemma {:induction false} WordsWellCut(gs: seq<Glyph>, threshold: real)
    ensures WellCut(Words(gs, threshold), threshold)
  {
    if |gs| > 1 {
      var rest := Words(gs[1..], threshold);
      WordsWellCut(gs[1..], threshold);
      if WideGap(gs[0], gs[1], threshold) {
        WellCutNew(gs[0], rest, threshold);
      } else {
        WellCutGrow(gs[0], rest, threshold);
      }
    }
  }

  lemma {:induction false} SpacedEnds(gs: seq<Glyph>, threshold: real)
    requires gs != [] && forall g :: g in gs ==> Inked(g)
    ensures var s := Spaced(gs, threshold); s != "" && !IsSpace(s[0]) && !IsSpace(s[|s| - 1])
  {
    assert gs[0] in gs;
    assert gs[0].ch[0] in gs[0].ch && gs[0].ch[|gs[0].ch| - 1] in gs[0].ch;
    if |gs| > 1 {
      SpacedEnds(gs[1..], threshold);
    }
  }

  /** For inked glyphs the spaces of the text are exactly the wide gaps: splitting it at spaces gives back the words. */
  lemma {:induction false} JoinLineSplits(gs: seq<Glyph>, ratio: real)
    requires gs != [] && forall g :: g in gs ==> Inked(g)
    ensures var ws := Words(gs, GapThreshold(gs, ratio));
      && Flat(ws) == gs && WellCut(ws, GapThreshold(gs, ratio))
      && JoinLineGlyphs(gs, ratio) == Join(" ", WordTexts(ws))
      && Split(JoinLineGlyphs(gs, ratio), ' ') == WordTexts(ws)
  {
    var threshold := GapThreshold(gs, ratio);
    var ws := Words(gs, threshold);
    PartsSpaced(gs, threshold, |gs|);
    assert gs[..|gs|] == gs;
    SpacedEnds(gs, threshold);
    SpacedWords(gs, threshold);
    WordsFlatten(gs, threshold);
    WordsWellCut(gs, threshold);
    forall k | 0 <= k < |ws| ensures ' ' !in GlyphText(ws[k]) {
      forall g | g in ws[k] ensures Inked(g) {
        FlatIn(ws, g);
      }
      NoSpace(ws[k]);
    }
    WordTextsAt(ws);
    SplitJoin(WordTexts(ws), ' ');
  }

  lemma {:induction false} NoSpace(gs: seq<Glyph>)
    requires forall g :: g in gs ==> Inked(g)
    ensures ' ' !in GlyphText(gs)
  {
    if gs != [] {
      assert gs[0] in gs;
      NoSpace(gs[1..]);
    }
  }

  lemma {:induction false} WordTextsAt(ws: seq<seq<Glyph>>)
    ensures |WordTexts(ws)| == |ws|
    ensures forall k :: 0 <= k < |ws| ==> WordTexts(ws)[k] == GlyphText(ws[k])
  {
    if ws != [] {
      WordTextsAt(ws[1..]);
    }
  }
}
