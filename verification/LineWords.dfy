/** The words of a line's text, for glyphs of every kind. */
module LineWords {
  import opened Glyphs
  import opened Seqs
  import opened Text
  import opened LineText

  // ----- words of a text

  /** `s.split()`: the runs of characters that are no white space. */
  function Fields(s: string): seq<string> {
    if s == "" then [] else
      var init, c := s[..|s| - 1], s[|s| - 1];
      var fs := Fields(init);
      if IsSpace(c) then fs
      else if fs == [] || IsSpace(init[|init| - 1]) then fs + [[c]]
      else fs[..|fs| - 1] + [fs[|fs| - 1] + [c]]
  }

  predicate AllWhite(s: string) { forall k :: 0 <= k < |s| ==> IsSpace(s[k]) }

  predicate AllInk(s: string) { forall k :: 0 <= k < |s| ==> !IsSpace(s[k]) }

  /** Nothing, or something that ends in white space. */
  predicate Open(s: string) { s == "" || IsSpace(s[|s| - 1]) }

  lemma {:induction false} FieldsWellFormed(s: string)
    requires s != "" && !IsSpace(s[|s| - 1])
    ensures Fields(s) != []
  {
  }

  lemma FieldsSnoc(init: string, c: char)
    ensures var fs := Fields(init);
      Fields(init + [c]) ==
        if IsSpace(c) then fs
        else if fs == [] || IsSpace(init[|init| - 1]) then fs + [[c]]
        else fs[..|fs| - 1] + [fs[|fs| - 1] + [c]]
  {
    hide IsSpace;
    assert (init + [c])[..|init|] == init;
  }

  lemma OneVisible(c: char)
    ensures Visible([c]) == if IsSpace(c) then "" else [c]
  {
    hide IsSpace;
    FilterCons(c, "", Text.Ink);
    assert [c] + "" == [c];
  }

  /** The words hold exactly the visible characters, in order. */
  lemma {:induction false} FieldsVisible(s: string)
    ensures Flat(Fields(s)) == Visible(s)
  {
    if s != "" {
      hide *;
      var init, c := s[..|s| - 1], s[|s| - 1];
      assert s == init + [c];
      FieldsVisible(init);
      FieldsSnoc(init, c);
      VisibleAppend(init, [c]);
      OneVisible(c);
      FlatMore(Fields(init), c, Flat(Fields(init)));
      assert Visible(init) + "" == Visible(init);
    } else {
      NoFields();
    }
  }

  lemma NoFields()
    ensures Fields("") == [] && Visible("") == "" && Flat<char>([]) == []
  {
  }

  lemma FlatMore(fs: seq<string>, c: char, flat: string)
    requires Flat(fs) == flat
    ensures Flat(fs + [[c]]) == flat + [c]
    ensures fs != [] ==> Flat(fs[..|fs| - 1] + [fs[|fs| - 1] + [c]]) == flat + [c]
  {
    hide Flat;
    FlatOne(fs, [c]);
    if fs != [] {
      var front, last := fs[..|fs| - 1], fs[|fs| - 1];
      FlatGrow(front, last, c);
      assert front + [last] == fs;
    }
  }

  lemma FlatGrow(front: seq<string>, w: string, c: char)
    ensures Flat(front + [w + [c]]) == Flat(front + [w]) + [c]
  {
    hide Flat;
    FlatOne(front, w);
    FlatOne(front, w + [c]);
    Regroup(Flat(front), w, [c]);
  }

  /** None of them is empty or holds white space. */
  lemma {:induction false} FieldsInk(s: string)
    ensures forall k :: 0 <= k < |Fields(s)| ==> Fields(s)[k] != "" && AllInk(Fields(s)[k])
  {
    if s != "" {
      var init, c := s[..|s| - 1], s[|s| - 1];
      assert s == init + [c];
      FieldsInk(init);
      FieldsSnoc(init, c);
      hide Fields, IsSpace;
      var fs := Fields(init);
      if fs != [] && !IsSpace(c) {
        InkSnoc(fs[|fs| - 1], c);
      }
      InkSnoc("", c);
      hide AllInk;
      assert "" + [c] == [c];
    }
  }

  lemma InkSnoc(w: string, c: char)
    requires AllInk(w)
    ensures AllInk(w + [c]) <==> !IsSpace(c)
  {
    hide IsSpace;
    assert (w + [c])[|w|] == c;
  }

  lemma {:induction false} FieldsWhite(s: string, w: string)
    requires AllWhite(w)
    ensures Fields(s + w) == Fields(s)
  {
    hide Fields, IsSpace;
    if w == "" {
      assert s + w == s;
    } else {
      var n := |w| - 1;
      assert s + w == (s + w[..n]) + [w[n]];
      FieldsSnoc(s + w[..n], w[n]);
      FieldsWhite(s, w[..n]);
    }
  }

  lemma InkInit(w: string)
    requires AllInk(w) && w != ""
    ensures var n := |w| - 1;
      AllInk(w[..n]) && !IsSpace(w[n]) && (n > 0 ==> !IsSpace(w[n - 1])) && w == w[..n] + [w[n]]
  {
    hide IsSpace;
  }

  lemma {:induction false} FieldsNew(s: string, w: string)
    requires Open(s) && w != "" && AllInk(w)
    ensures Fields(s + w) == Fields(s) + [w]
  {
    hide Fields, IsSpace, AllInk;
    var n := |w| - 1;
    InkInit(w);
    NoFields();
    var front := s + w[..n];
    assert s + w == front + [w[n]];
    FieldsSnoc(front, w[n]);
    if n == 0 {
      assert front == s;
    } else {
      assert front[|front| - 1] == w[n - 1];
      FieldsNew(s, w[..n]);
      LastGrows(Fields(s), w[..n], w[n]);
    }
  }

  lemma LastGrows(fs: seq<string>, w: string, c: char)
    ensures var more := fs + [w]; more[..|more| - 1] + [more[|more| - 1] + [c]] == fs + [w + [c]]
  {
  }

  lemma {:induction false} FieldsGrow(s: string, w: string)
    requires !Open(s) && AllInk(w)
    ensures Fields(s) != []
    ensures var n := |Fields(s)| - 1; Fields(s + w) == Fields(s)[..n] + [Fields(s)[n] + w]
  {
    FieldsWellFormed(s);
    hide Fields, IsSpace, AllInk;
    var fs := Fields(s);
    if w == "" {
      assert s + w == s && fs[|fs| - 1] + w == fs[|fs| - 1];
    } else {
      var n := |w| - 1;
      var front := s + w[..n];
      InkInit(w);
      assert s + w == front + [w[n]];
      FieldsSnoc(front, w[n]);
      FieldsGrow(s, w[..n]);
      assert front[|front| - 1] == if n > 0 then w[n - 1] else s[|s| - 1];
      LastGrows(fs[..|fs| - 1], fs[|fs| - 1] + w[..n], w[n]);
      Regroup(fs[|fs| - 1], w[..n], [w[n]]);
    }
  }

  lemma {:induction false} FieldsIndented(w: string, s: string)
    requires AllWhite(w)
    ensures Fields(w + s) == Fields(s)
  {
    hide Fields, IsSpace, AllWhite;
    if s == "" {
      assert w + s == "" + w;
      FieldsWhite("", w);
    } else {
      var n := |s| - 1;
      var init, front := s[..n], w + s[..n];
      NoFields();
      assert w + s == front + [s[n]] && s == init + [s[n]];
      FieldsSnoc(front, s[n]);
      FieldsSnoc(init, s[n]);
      FieldsIndented(w, init);
      assert n > 0 ==> front[|front| - 1] == init[n - 1];
    }
  }

  /** Stripping changes no word. */
  lemma FieldsStrip(s: string)
    ensures Fields(Strip(s)) == Fields(s)
  {
    hide Fields, IsSpace;
    var i := LStripCut(s, IsSpace);
    var t := s[i..];
    var j := RStripCut(t, IsSpace);
    FieldsIndented(s[..i], t);
    FieldsWhite(t[..j], t[j..]);
    assert s == s[..i] + t && t == t[..j] + t[j..];
  }

  // ----- words of a line

  predicate White(g: Glyph) { g.ch != "" && AllWhite(g.ch) }

  predicate Ink(g: Glyph) { g.ch != "" && AllInk(g.ch) }

  /** The glyphs from `from` up to `to` are inked and the gaps between them are not wide. */
  ghost predicate Tight(gs: seq<Glyph>, threshold: real, from: nat, to: nat) {
    && from < to <= |gs|
    && (forall i :: from <= i < to ==> Ink(gs[i]))
    && (forall i :: from < i < to ==> !WideGap(gs[i - 1], gs[i], threshold))
  }

  ghost predicate WhiteFrom(gs: seq<Glyph>, from: nat, to: nat) {
    from <= to <= |gs| && forall i :: from <= i < to ==> White(gs[i])
  }

  /** Between two words there is white space, or nothing but a wide gap. */
  ghost predicate Parted(gs: seq<Glyph>, threshold: real, end: nat, start: nat) {
    && 0 < end <= start < |gs| && WhiteFrom(gs, end, start)
    && (end == start ==> WideGap(gs[end - 1], gs[start], threshold))
  }

  /** The words of the first `n` glyphs, by where they start and end. */
  ghost predicate AreWords(gs: seq<Glyph>, threshold: real, n: nat, words: seq<(nat, nat)>) {
    && n <= |gs|
    && (forall k :: 0 <= k < |words| ==> words[k].1 <= n && Tight(gs, threshold, words[k].0, words[k].1))
    && (forall k :: 0 < k < |words| ==> Parted(gs, threshold, words[k - 1].1, words[k].0))
    && (if words == [] then WhiteFrom(gs, 0, n)
        else WhiteFrom(gs, 0, words[0].0) && WhiteFrom(gs, words[|words| - 1].1, n))
  }

  /** The strings are the texts of these words. */
  ghost predicate AreTexts(gs: seq<Glyph>, words: seq<(nat, nat)>, texts: seq<string>) {
    && |texts| == |words|
    && forall k :: 0 <= k < |words| ==>
      words[k].0 <= words[k].1 <= |gs| && texts[k] == GlyphText(gs[words[k].0..words[k].1])
  }

  lemma BlankIsWhite(g: Glyph)
    requires Ink(g) || White(g)
    ensures Blank(g.ch) <==> White(g)
    ensures White(g) <==> !Ink(g)
  {
    assert g.ch[0] in g.ch;
    if White(g) {
      forall c | c in g.ch ensures IsSpace(c) {
      }
    }
  }

  /** What one more glyph adds to the text: nothing or white space for a white one, its ink after a space where one is due. */
  lemma AddedIs(gs: seq<Glyph>, threshold: real, n: nat)
    requires n < |gs| && forall g :: g in gs ==> Ink(g) || White(g)
    requires n > 0 ==> (Open(Flat(Parts(gs, threshold, n))) <==> White(gs[n - 1])) && Flat(Parts(gs, threshold, n)) != ""
    ensures var t, a := Flat(Parts(gs, threshold, n)), Added(gs, threshold, n + 1);
      && Flat(Parts(gs, threshold, n + 1)) == t + a
      && (White(gs[n]) ==> AllWhite(a) && (a == "" ==> t != "" && IsSpace(t[|t| - 1])))
      && (Ink(gs[n]) && (n == 0 || White(gs[n - 1]) || !WideGap(gs[n - 1], gs[n], threshold)) ==> a == gs[n].ch)
      && (Ink(gs[n]) && n > 0 && Ink(gs[n - 1]) && WideGap(gs[n - 1], gs[n], threshold) ==> a == " " + gs[n].ch)
  {
    assert gs[n] in gs;
    PartsAdd(gs, threshold, n + 1);
    BlankIsWhite(gs[n]);
    if n > 0 {
      assert gs[n - 1] in gs;
      BlankIsWhite(gs[n - 1]);
      PartsLast(gs, threshold, n);
    }
    hide Parts, Flat, WideGap, Blank, Ink;
  }

  /** There are parts, and when the last one ends in a space so does the text. */
  lemma {:induction false} PartsLast(gs: seq<Glyph>, threshold: real, n: nat)
    requires 0 < n <= |gs|
    ensures var ps, t := Parts(gs, threshold, n), Flat(Parts(gs, threshold, n));
      ps != [] && (EndsWith(ps[|ps| - 1], ' ') ==> t != "" && t[|t| - 1] == ' ')
  {
    var ps := Parts(gs, threshold, n);
    if n > 1 {
      PartsLast(gs, threshold, n - 1);
    }
    assert ps != [];
    var m := |ps| - 1;
    assert ps == ps[..m] + [ps[m]];
    FlatOne(ps[..m], ps[m]);
  }

  lemma OneGlyph(gs: seq<Glyph>, from: nat, to: nat)
    requires from <= to < |gs|
    ensures GlyphText(gs[from..to + 1]) == GlyphText(gs[from..to]) + gs[to].ch
  {
    assert gs[from..to + 1] == gs[from..to] + [gs[to]];
    GlyphTextAppend(gs[from..to], [gs[to]]);
    assert GlyphText([gs[to]]) == gs[to].ch + GlyphText([gs[to]][1..]) == gs[to].ch;
  }

  lemma WordsWhite(gs: seq<Glyph>, threshold: real, n: nat, words: seq<(nat, nat)>)
    requires n < |gs| && AreWords(gs, threshold, n, words) && White(gs[n])
    ensures AreWords(gs, threshold, n + 1, words)
  {
    hide Tight, Parted, White;
  }

  lemma WordsNew(gs: seq<Glyph>, threshold: real, n: nat, words: seq<(nat, nat)>)
    requires n < |gs| && AreWords(gs, threshold, n, words) && Ink(gs[n])
    requires n == 0 || White(gs[n - 1]) || WideGap(gs[n - 1], gs[n], threshold)
    ensures AreWords(gs, threshold, n + 1, words + [(n, n + 1)])
  {
    var more := words + [(n, n + 1)];
    assert Tight(gs, threshold, n, n + 1);
    hide White, WideGap;
    if words != [] {
      var end := words[|words| - 1].1;
      assert Tight(gs, threshold, words[|words| - 1].0, end);
      if end == n {
        assert Ink(gs[n - 1]);
        InkNotWhite(gs[n - 1]);
      }
      assert Parted(gs, threshold, end, n);
    }
    hide Tight, Parted, Ink;
    forall k | 0 < k < |more| ensures Parted(gs, threshold, more[k - 1].1, more[k].0) {
      if k < |words| {
        assert Parted(gs, threshold, words[k - 1].1, words[k].0);
      }
    }
  }

  lemma InkNotWhite(g: Glyph)
    ensures !(Ink(g) && White(g))
  {
    if Ink(g) {
      assert !IsSpace(g.ch[0]);
    }
  }

  lemma LastEnds(gs: seq<Glyph>, threshold: real, n: nat, words: seq<(nat, nat)>)
    requires 0 < n < |gs| && AreWords(gs, threshold, n, words) && Ink(gs[n - 1])
    ensures words != [] && words[|words| - 1].1 == n
  {
    InkNotWhite(gs[n - 1]);
    hide White, WideGap, Ink, Tight, Parted;
    assert !White(gs[n - 1]);
  }

  lemma TightGrows(gs: seq<Glyph>, threshold: real, from: nat, n: nat)
    requires n < |gs| && Tight(gs, threshold, from, n) && Ink(gs[n]) && !WideGap(gs[n - 1], gs[n], threshold)
    ensures Tight(gs, threshold, from, n + 1)
  {
    hide WideGap, Ink;
  }

  lemma WordsGrow(gs: seq<Glyph>, threshold: real, n: nat, words: seq<(nat, nat)>)
    requires 0 < n < |gs| && AreWords(gs, threshold, n, words) && Ink(gs[n])
    requires Ink(gs[n - 1]) && !WideGap(gs[n - 1], gs[n], threshold)
    ensures words != [] && words[|words| - 1].1 == n
    ensures var m := |words| - 1; AreWords(gs, threshold, n + 1, words[..m] + [(words[m].0, n + 1)])
  {
    LastEnds(gs, threshold, n, words);
    hide White, WideGap, Ink, Tight, Parted;
    var m := |words| - 1;
    var more := words[..m] + [(words[m].0, n + 1)];
    TightGrows(gs, threshold, words[m].0, n);
    forall k | 0 <= k < |more| ensures more[k].1 <= n + 1 && Tight(gs, threshold, more[k].0, more[k].1) {
      if k < m {
        assert more[k] == words[k];
      }
    }
    forall k | 0 < k < |more| ensures Parted(gs, threshold, more[k - 1].1, more[k].0) {
      assert more[k - 1] == words[k - 1] && more[k].0 == words[k].0;
    }
    assert more[0].0 == words[0].0;
  }

  /** The words so far are those of the text so far, and the text ends as its last glyph does. */
  ghost predicate ReadSoFar(gs: seq<Glyph>, threshold: real, n: nat, words: seq<(nat, nat)>) {
    && n <= |gs| && AreWords(gs, threshold, n, words)
    && AreTexts(gs, words, Fields(Flat(Parts(gs, threshold, n))))
    && (n > 0 ==> Flat(Parts(gs, threshold, n)) != "" && (Open(Flat(Parts(gs, threshold, n))) <==> White(gs[n - 1])))
  }

  lemma TextsNew(gs: seq<Glyph>, words: seq<(nat, nat)>, texts: seq<string>, n: nat)
    requires n < |gs| && AreTexts(gs, words, texts)
    ensures AreTexts(gs, words + [(n, n + 1)], texts + [gs[n].ch])
  {
    OneGlyph(gs, n, n);
    assert gs[n..n] == [];
    assert "" + gs[n].ch == gs[n].ch;
  }

  lemma TextsGrow(gs: seq<Glyph>, words: seq<(nat, nat)>, texts: seq<string>, n: nat)
    requires n < |gs| && AreTexts(gs, words, texts) && words != [] && words[|words| - 1].1 == n
    ensures var m := |words| - 1;
      AreTexts(gs, words[..m] + [(words[m].0, n + 1)], texts[..m] + [texts[m] + gs[n].ch])
  {
    OneGlyph(gs, words[|words| - 1].0, n);
  }

  lemma Continued(t: string, a: string)
    ensures a == "" ==> t + a == t
    ensures a != "" && AllWhite(a) ==> Open(t + a)
    ensures a != "" && AllInk(a) ==> t + a != "" && !Open(t + a)
  {
    assert a != "" ==> (t + a)[|t + a| - 1] == a[|a| - 1];
  }

  lemma ReadWhite(gs: seq<Glyph>, threshold: real, n: nat, words: seq<(nat, nat)>)
    requires n < |gs| && (forall g :: g in gs ==> Ink(g) || White(g)) && White(gs[n])
    requires ReadSoFar(gs, threshold, n, words)
    ensures ReadSoFar(gs, threshold, n + 1, words)
  {
    AddedIs(gs, threshold, n);
    WordsWhite(gs, threshold, n, words);
    var t, a := Flat(Parts(gs, threshold, n)), Added(gs, threshold, n + 1);
    FieldsWhite(t, a);
    Continued(t, a);
    hide Flat, Parts, Added, AreWords, AreTexts, Fields, AllWhite;
  }

  lemma ReadNew(gs: seq<Glyph>, threshold: real, n: nat, words: seq<(nat, nat)>)
    requires n < |gs| && (forall g :: g in gs ==> Ink(g) || White(g)) && Ink(gs[n])
    requires n == 0 || White(gs[n - 1]) || WideGap(gs[n - 1], gs[n], threshold)
    requires ReadSoFar(gs, threshold, n, words)
    ensures ReadSoFar(gs, threshold, n + 1, words + [(n, n + 1)])
  {
    AddedIs(gs, threshold, n);
    WordsNew(gs, threshold, n, words);
    NoText(gs, threshold);
    var t, ch := Flat(Parts(gs, threshold, n)), gs[n].ch;
    if n > 0 {
      assert gs[n - 1] in gs;
      InkNotWhite(gs[n - 1]);
    }
    InkNotWhite(gs[n]);
    NewWord(t, if n > 0 && Ink(gs[n - 1]) then " " else "", ch);
    TextsNew(gs, words, Fields(t), n);
    hide Flat, Parts, Added, AreWords, AreTexts, Fields, AllInk, AllWhite, WideGap;
    assert "" + ch == ch;
  }

  lemma NewWord(t: string, sep: string, ch: string)
    requires if sep == "" then Open(t) else sep == " "
    requires ch != "" && AllInk(ch)
    ensures var more := t + (sep + ch); Fields(more) == Fields(t) + [ch] && more != "" && !Open(more)
  {
    FieldsWhite(t, sep);
    Continued(t, sep);
    FieldsNew(t + sep, ch);
    Continued(t + sep, ch);
    Regroup(t, sep, ch);
    hide Fields, AllInk;
  }

  lemma NoText(gs: seq<Glyph>, threshold: real)
    ensures Flat(Parts(gs, threshold, 0)) == ""
  {
  }

  lemma ReadGrow(gs: seq<Glyph>, threshold: real, n: nat, words: seq<(nat, nat)>)
    requires 0 < n < |gs| && (forall g :: g in gs ==> Ink(g) || White(g)) && Ink(gs[n])
    requires Ink(gs[n - 1]) && !WideGap(gs[n - 1], gs[n], threshold)
    requires ReadSoFar(gs, threshold, n, words)
    ensures words != [] && ReadSoFar(gs, threshold, n + 1, words[..|words| - 1] + [(words[|words| - 1].0, n + 1)])
  {
    AddedIs(gs, threshold, n);
    WordsGrow(gs, threshold, n, words);
    InkNotWhite(gs[n - 1]);
    InkNotWhite(gs[n]);
    var t, ch := Flat(Parts(gs, threshold, n)), gs[n].ch;
    FieldsGrow(t, ch);
    Continued(t, ch);
    TextsGrow(gs, words, Fields(t), n);
    hide Flat, Parts, Added, AreWords, AreTexts, Fields, AllInk, WideGap;
  }

  /**
   * For glyphs of any kind, each white space or ink: the words of the line's text are the runs of inked glyphs with no
   * wide gap inside, and between two of them there is white space or a wide gap.
   */
  lemma {:induction false} LineReadsInWords(gs: seq<Glyph>, ratio: real) returns (words: seq<(nat, nat)>)
    requires forall g :: g in gs ==> Ink(g) || White(g)
    ensures AreWords(gs, GapThreshold(gs, ratio), |gs|, words)
    ensures AreTexts(gs, words, Fields(JoinLineGlyphs(gs, ratio)))
  {
    hide *;
    var threshold := GapThreshold(gs, ratio);
    words := [];
    ReadNothing(gs, threshold);
    for n := 0 to |gs|
      invariant ReadSoFar(gs, threshold, n, words)
    {
      assert gs[n] in gs;
      if White(gs[n]) {
        ReadWhite(gs, threshold, n, words);
      } else if n == 0 || White(gs[n - 1]) || WideGap(gs[n - 1], gs[n], threshold) {
        ReadNew(gs, threshold, n, words);
        words := words + [(n, n + 1)];
      } else {
        assert gs[n - 1] in gs;
        ReadGrow(gs, threshold, n, words);
        words := words[..|words| - 1] + [(words[|words| - 1].0, n + 1)];
      }
    }
    ReadAll(gs, ratio, words);
  }

  lemma ReadNothing(gs: seq<Glyph>, threshold: real)
    ensures ReadSoFar(gs, threshold, 0, [])
  {
    NoText(gs, threshold);
    NoFields();
    hide Flat, Parts, Fields;
  }

  lemma ReadAll(gs: seq<Glyph>, ratio: real, words: seq<(nat, nat)>)
    requires ReadSoFar(gs, GapThreshold(gs, ratio), |gs|, words)
    ensures AreWords(gs, GapThreshold(gs, ratio), |gs|, words)
    ensures AreTexts(gs, words, Fields(JoinLineGlyphs(gs, ratio)))
  {
    FieldsStrip(Flat(Parts(gs, GapThreshold(gs, ratio), |gs|)));
    hide AreWords, AreTexts, Fields, Flat, Strip, Parts, GapThreshold;
  }
}
