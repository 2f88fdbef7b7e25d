/** DOCX text extraction in text mode, from paragraphs to document. */
module DocxText {
  import opened Options
  import opened Seqs
  import opened Text
  import opened DocxPages
  import opened DocxWorkers

  // ----- one page

  function ItemTexts(items: seq<Item>): seq<string> {
    if items == [] then [] else (if items[0].TextItem? then [items[0].text] else []) + ItemTexts(items[1..])
  }

  /** The text a worker returns for its page. */
  function PageText(paras: seq<Paragraph>, ids: seq<nat>): string {
    Join("\n\n", ItemTexts(ContentOf(paras, ids, false)))
  }

  /** In text mode a worker returns one line without images; a page without paragraphs gives none. */
  function TextWorker(paras: seq<Paragraph>, pages: seq<seq<nat>>): nat -> Option<LineData> {
    (p: nat) => if p < |pages| && pages[p] != [] then Some(LineData(PageText(paras, pages[p]), [], p, [])) else None
  }

  /** The paragraphs' own texts, one after the other. */
  function RawText(ps: seq<Paragraph>): string {
    if ps == [] then "" else ps[0].text + RawText(ps[1..])
  }

  lemma {:induction false} DespaceVisible(s: string)
    ensures Visible(Despace(s)) == Visible(s)
  {
    if s != "" {
      DespaceVisible(s[1..]);
      var c := if s[0] == '\U{3000}' then ' ' else s[0];
      assert s == [s[0]] + s[1..] && Despace(s) == [c] + Despace(s[1..]);
      FilterCons(s[0], s[1..], Ink);
      FilterCons(c, Despace(s[1..]), Ink);
    }
  }

  lemma {:induction false} ParagraphVisible(p: Paragraph)
    ensures Visible(ParagraphText(p)) == Visible(p.text)
  {
    hide Visible, Strip, Despace;
    VisibleStrip(p.text);
    DespaceVisible(Strip(p.text));
    VisibleStrip(Despace(Strip(p.text)));
    VisibleNone("");
    VisibleNone("\n");
    VisibleAppend(Strip(Despace(Strip(p.text))), "\n");
  }

  lemma {:induction false} AllTextVisible(ps: seq<Paragraph>)
    ensures Visible(AllText(ps)) == Visible(RawText(ps))
  {
    if ps != [] {
      hide Visible, ParagraphText;
      AllTextVisible(ps[1..]);
      ParagraphVisible(ps[0]);
      VisibleAppend(ParagraphText(ps[0]), AllText(ps[1..]));
      VisibleAppend(ps[0].text, RawText(ps[1..]));
    }
  }

  lemma {:induction false} ItemTextsFlat(items: seq<Item>)
    ensures Flat(ItemTexts(items)) == ItemText(items)
  {
    if items != [] {
      ItemTextsFlat(items[1..]);
      var rest := ItemTexts(items[1..]);
      if items[0].TextItem? {
        FlatCons(items[0].text, rest);
      } else {
        assert [] + rest == rest;
      }
    }
  }

  /** A page's text shows exactly the characters of its paragraphs. */
  lemma {:induction false} PageVisible(paras: seq<Paragraph>, ids: seq<nat>)
    ensures Visible(PageText(paras, ids)) == Visible(RawText(Selected(paras, ids)))
  {
    var items := ContentOf(paras, ids, false);
    ContentComplete(paras, ids, false);
    AllTextVisible(Selected(paras, ids));
    ItemTextsFlat(items);
    VisibleJoin("\n\n", ItemTexts(items));
  }

  // ----- all pages

  lemma {:induction false} RawAppend(a: seq<Paragraph>, b: seq<Paragraph>)
    ensures RawText(a + b) == RawText(a) + RawText(b)
  {
    if a == [] {
      assert a + b == b;
    } else {
      RawAppend(a[1..], b);
      assert (a + b)[1..] == a[1..] + b;
      Regroup(a[0].text, RawText(a[1..]), RawText(b));
    }
  }

  lemma {:induction false} SelectedAppend(paras: seq<Paragraph>, a: seq<nat>, b: seq<nat>)
    ensures Selected(paras, a + b) == Selected(paras, a) + Selected(paras, b)
  {
    if a == [] {
      assert a + b == b;
    } else {
      SelectedAppend(paras, a[1..], b);
      assert (a + b)[1..] == a[1..] + b;
      Regroup(if a[0] < |paras| then [paras[a[0]]] else [], Selected(paras, a[1..]), Selected(paras, b));
    }
  }

  lemma {:induction false} SelectedRange(paras: seq<Paragraph>, k: nat)
    requires k <= |paras|
    ensures Selected(paras, Range(0, k)) == paras[..k]
  {
    if k > 0 {
      SelectedRange(paras, k - 1);
      RangeSnoc(0, k - 1);
      SelectedAppend(paras, Range(0, k - 1), [k - 1]);
      assert [k - 1][1..] == [];
      assert Selected(paras, [k - 1]) == [paras[k - 1]];
      assert paras[..k] == paras[..k - 1] + [paras[k - 1]];
    }
  }

  /** The lines of pages 0 .. m-1 in page order. */
  lemma {:induction false} InOrderSnoc(paras: seq<Paragraph>, pages: seq<seq<nat>>, m: nat)
    requires m < |pages|
    ensures var worker := TextWorker(paras, pages);
      Finished(Range(0, m + 1), worker) == Finished(Range(0, m), worker) + ResultOf(worker)(m)
  {
    var worker := TextWorker(paras, pages);
    RangeSnoc(0, m);
    FlatMapAppend(Range(0, m), [m], ResultOf(worker));
    assert [m][1..] == [];
    assert FlatMap([m], ResultOf(worker)) == ResultOf(worker)(m) + [];
  }

  lemma {:induction false} AsIsSnoc(lines: seq<LineData>, ln: LineData)
    ensures AsIs(lines + [ln]) == AsIs(lines) + [Out(ln.text, ln.page)]
  {
    if lines == [] {
      assert lines + [ln] == [ln] && [ln][1..] == [];
    } else {
      AsIsSnoc(lines[1..], ln);
      assert (lines + [ln])[1..] == lines[1..] + [ln];
    }
  }

  lemma {:induction false} OutTextsAppend(a: seq<Out>, b: seq<Out>)
    ensures Flat(OutTexts(a + b)) == Flat(OutTexts(a)) + Flat(OutTexts(b))
  {
    if a == [] {
      assert a + b == b;
    } else {
      OutTextsAppend(a[1..], b);
      assert (a + b)[1..] == a[1..] + b;
      Regroup(a[0].text, Flat(OutTexts(a[1..])), Flat(OutTexts(b)));
      FlatCons(a[0].text, OutTexts(a[1..]));
      FlatCons(a[0].text, OutTexts((a + b)[1..]));
    }
  }

  lemma FlatCons(x: string, rest: seq<string>)
    ensures Flat([x] + rest) == x + Flat(rest)
  {
    assert ([x] + rest)[1..] == rest;
  }

  /** Dropping the empty texts drops no character. */
  lemma {:induction false} TextsKept(outs: seq<Out>)
    ensures Flat(OutTexts(Filter(outs, HasText))) == Flat(OutTexts(outs))
  {
    if outs != [] {
      hide Filter;
      var x, rest := outs[0], outs[1..];
      TextsKept(rest);
      assert outs == [x] + rest;
      FilterCons(x, rest, HasText);
      FlatCons(x.text, OutTexts(rest));
      FlatCons(x.text, OutTexts(Filter(rest, HasText)));
      assert ([x] + Filter(rest, HasText))[1..] == Filter(rest, HasText);
      assert x.text == "" ==> x.text + Flat(OutTexts(rest)) == Flat(OutTexts(rest));
    }
  }

  lemma {:induction false} PagesVisible(paras: seq<Paragraph>, pages: seq<seq<nat>>, m: nat)
    requires m <= |pages|
    ensures Visible(Flat(OutTexts(AsIs(Finished(Range(0, m), TextWorker(paras, pages))))))
         == Visible(RawText(Selected(paras, Flat(pages[..m]))))
  {
    var worker := TextWorker(paras, pages);
    if m == 0 {
      RangeNone();
    } else {
      var ids := pages[m - 1];
      var before := Finished(Range(0, m - 1), worker);
      PagesVisible(paras, pages, m - 1);
      InOrderSnoc(paras, pages, m - 1);
      assert pages[..m] == pages[..m - 1] + [ids];
      FlatAppend(pages[..m - 1], [ids]);
      FlatOne(ids);
      SelectedAppend(paras, Flat(pages[..m - 1]), ids);
      hide Visible, PageText, Flat, Finished, AsIs, OutTexts, RawText, Selected;
      RawAppend(Selected(paras, Flat(pages[..m - 1])), Selected(paras, ids));
      VisibleAppend(RawText(Selected(paras, Flat(pages[..m - 1]))), RawText(Selected(paras, ids)));
      PageVisible(paras, ids);
      if ids == [] {
        NothingSelected(paras);
        assert before + [] == before;
      } else {
        var ln := LineData(PageText(paras, ids), [], m - 1, []);
        assert ResultOf(worker)(m - 1) == [ln];
        AsIsSnoc(before, ln);
        OutTextsAppend(AsIs(before), [Out(ln.text, m - 1)]);
        OneOut(Out(ln.text, m - 1));
        VisibleAppend(Flat(OutTexts(AsIs(before))), ln.text);
      }
    }
  }

  lemma RangeNone()
    ensures Range(0, 0) == []
  {
  }

  lemma FlatOne(ids: seq<nat>)
    ensures Flat([ids]) == ids
  {
    assert [ids][1..] == [];
  }

  lemma NothingSelected(paras: seq<Paragraph>)
    ensures Selected(paras, []) == [] && RawText([]) == "" && Visible("") == ""
  {
  }

  lemma OneOut(o: Out)
    ensures Flat(OutTexts([o])) == o.text
  {
    assert [o][1..] == [];
    assert [o.text][1..] == [];
  }

  // ----- the whole document

  lemma {:induction false} NoImages(pages: seq<nat>, worker: nat -> Option<LineData>)
    requires forall p :: p in pages && worker(p).Some? ==> worker(p).value.images == []
    ensures !HasImages(Finished(pages, worker))
  {
    if pages != [] {
      assert pages[0] in pages;
      NoImages(pages[1..], worker);
      var lines, rest := Finished(pages, worker), Finished(pages[1..], worker);
      assert lines == ResultOf(worker)(pages[0]) + rest;
      forall i | 0 <= i < |lines| ensures lines[i].images == [] {
        var n := |ResultOf(worker)(pages[0])|;
        if i >= n {
          assert lines[i] == rest[i - n];
        }
      }
    }
  }

  lemma {:induction false} FlatPrefix(pages: seq<seq<nat>>, m: nat, k: nat)
    requires m <= |pages| && Flat(pages) == Range(0, k)
    ensures |Flat(pages[..m])| <= k && Flat(pages[..m]) == Range(0, |Flat(pages[..m])|)
  {
    assert pages == pages[..m] + pages[m..];
    FlatAppend(pages[..m], pages[m..]);
    RangePrefix(k, |Flat(pages[..m])|);
  }

  lemma {:induction false} RangePrefix(k: nat, n: nat)
    ensures |Range(0, k)| == k
    ensures n <= k ==> Range(0, k)[..n] == Range(0, n)
  {
    if k > 0 {
      RangePrefix(k - 1, n);
      RangeSnoc(0, k - 1);
      if n == k {
        assert Range(0, k)[..k] == Range(0, k);
      }
    } else {
      RangeNone();
    }
  }

  /**
   * From paragraphs to document: for every order in which the page workers finish, the document shows exactly the
   * characters of paragraphs 0 .. k-1, in order; paragraphs are left out only when there are more pages than asked for.
   */
  lemma {:induction false} TextOfParagraphs(paras: seq<Paragraph>, breaks: seq<bool>, toPage: int, order: seq<nat>, up: Uploads)
    returns (k: nat)
    requires |breaks| == |paras|
    requires var pages := PagesOf(breaks, toPage);
      multiset(order) == multiset(PagesToProcess(|pages|, 0, toPage))
    ensures var pages := PagesOf(breaks, toPage);
      && k <= |paras|
      && (k < |paras| ==> |pages| > toPage)
      && Visible(DocumentText(Collect(Finished(order, TextWorker(paras, pages)), up))) == Visible(RawText(paras[..k]))
  {
    hide PagesOf, PagesToProcess, Range, Flat, Selected, RawText, Visible, Finished, Collect, DocumentText, TextWorker;
    var pages := PagesOf(breaks, toPage);
    k := PagesCover(breaks, toPage);
    LimitKeepsPrefix(|pages|, 0, toPage);
    AnyOrderVisible(paras, pages, Clamp(toPage, 0, |pages|), order, up);
    SelectedRange(paras, k);
  }

  /** The processed pages, laid end to end, list paragraphs 0 .. k-1. */
  lemma {:induction false} PagesCover(breaks: seq<bool>, toPage: int) returns (k: nat)
    ensures var pages := PagesOf(breaks, toPage);
      && k <= |breaks| && Flat(pages[..Clamp(toPage, 0, |pages|)]) == Range(0, k)
      && (k < |breaks| ==> |pages| > toPage)
  {
    hide PagesOf, Range, Flat;
    var pages := PagesOf(breaks, toPage);
    var m := Clamp(toPage, 0, |pages|);
    var all := PagesSplitPrefix(breaks, toPage);
    FlatPrefix(pages, m, all);
    k := |Flat(pages[..m])|;
    if |pages| <= toPage {
      assert pages[..m] == pages;
      RangePrefix(all, all);
    }
  }

  lemma {:induction false} AnyOrderVisible(paras: seq<Paragraph>, pages: seq<seq<nat>>, m: nat, order: seq<nat>, up: Uploads)
    requires m <= |pages| && multiset(order) == multiset(Range(0, m))
    ensures Visible(DocumentText(Collect(Finished(order, TextWorker(paras, pages)), up)))
         == Visible(RawText(Selected(paras, Flat(pages[..m]))))
  {
    OwnPages(paras, pages);
    hide *;
    RangeOrder(m);
    FanOutDeterministic(Range(0, m), order, TextWorker(paras, pages), up);
    InOrderVisible(paras, pages, m, up);
  }

  lemma OwnPages(paras: seq<Paragraph>, pages: seq<seq<nat>>)
    ensures var worker := TextWorker(paras, pages);
      forall p :: worker(p).Some? ==> worker(p).value.page == p && worker(p).value.images == []
  {
    hide PageText;
  }

  lemma {:induction false} RangeOrder(m: nat)
    ensures forall i, j :: 0 <= i < j < |Range(0, m)| ==> Range(0, m)[i] < Range(0, m)[j]
    ensures forall p :: p in Range(0, m) ==> p < m
  {
    if m > 0 {
      RangeOrder(m - 1);
      RangeSnoc(0, m - 1);
      var before := Range(0, m - 1);
      assert forall i :: 0 <= i < |before| ==> before[i] in before;
    } else {
      RangeNone();
    }
  }

  lemma {:induction false} InOrderVisible(paras: seq<Paragraph>, pages: seq<seq<nat>>, m: nat, up: Uploads)
    requires m <= |pages|
    ensures Visible(DocumentText(Collect(Finished(Range(0, m), TextWorker(paras, pages)), up)))
         == Visible(RawText(Selected(paras, Flat(pages[..m]))))
  {
    var worker := TextWorker(paras, pages);
    var lines := Finished(Range(0, m), worker);
    OwnPages(paras, pages);
    hide TextWorker;
    RangeOrder(m);
    FinishedIncrease(Range(0, m), worker);
    NoImages(Range(0, m), worker);
    hide Visible, Collect, Finished, AsIs, OutTexts, HasImages, Join, Filter;
    CompletionOrderIrrelevant(lines, lines, up);
    TextsKept(AsIs(lines));
    VisibleJoin("\n\n", OutTexts(Filter(Collect(lines, up), HasText)));
    PagesVisible(paras, pages, m);
  }
}
