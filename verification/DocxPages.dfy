/** Splitting the paragraphs of a DOCX document into pages, by breaks or an estimate. */
module DocxPages {
  import opened Seqs

  /** Paragraph indices `lo`, `lo + 1`, ..., `hi - 1`. */
  function Range(lo: nat, hi: nat): (r: seq<nat>)
    ensures |r| == if lo <= hi then hi - lo else 0
    ensures forall k :: 0 <= k < |r| ==> r[k] == lo + k
    decreases hi - lo
  {
    if lo >= hi then [] else [lo] + Range(lo + 1, hi)
  }

  /** The page dictionary whose pages are numbered from 0. */
  function AsMap(pages: seq<seq<nat>>): map<nat, seq<nat>> {
    map p: nat | p < |pages| :: pages[p]
  }

  const HEURISTIC_LIMIT: nat := 1000
  const PARAGRAPHS_PER_PAGE: nat := 25

  // ----- page breaks

  /** `breaks[i]` tells whether paragraph `i` ends a page; `cur` is the page being filled and `page` its number. */
  function BreakPages(breaks: seq<bool>, i: nat, cur: seq<nat>, page: nat, maxPage: int): seq<seq<nat>>
    requires i <= |breaks|
    decreases |breaks| - i
  {
    if i == |breaks| then (if cur == [] then [] else [cur])
    else if !breaks[i] then BreakPages(breaks, i + 1, cur + [i], page, maxPage)
    else if page + 1 > maxPage then [cur + [i]]
    else [cur + [i]] + BreakPages(breaks, i + 1, [], page + 1, maxPage)
  }

  // ----- large documents

  /** Number of paragraphs the estimate covers before it passes `maxPage`. */
  function Covered(total: nat, maxPage: int): nat {
    if maxPage < 0 then 0
    else if total <= PARAGRAPHS_PER_PAGE * (maxPage + 1) then total else PARAGRAPHS_PER_PAGE * (maxPage + 1)
  }

  /** Pages of 25 paragraphs covering the indices `lo` to `n - 1`. */
  function FixedPages(lo: nat, n: nat): seq<seq<nat>>
    decreases n - lo
  {
    if lo >= n then []
    else if lo + PARAGRAPHS_PER_PAGE >= n then [Range(lo, n)]
    else [Range(lo, lo + PARAGRAPHS_PER_PAGE)] + FixedPages(lo + PARAGRAPHS_PER_PAGE, n)
  }

  /** The pages of a document; a document that yields no page has the single empty page 0. */
  function PagesOf(breaks: seq<bool>, maxPage: int): seq<seq<nat>> {
    var pages := if |breaks| > HEURISTIC_LIMIT then FixedPages(0, Covered(|breaks|, maxPage))
                 else BreakPages(breaks, 0, [], 0, maxPage);
    if pages == [] then [[]] else pages
  }

  // ----- the loops

  lemma {:induction false} MapUpdate(done: seq<seq<nat>>, cur: seq<nat>, next: seq<nat>)
    ensures AsMap(done + [cur])[|done| := next] == AsMap(done + [next])
    ensures |done| in AsMap(done + [cur]) && AsMap(done + [cur])[|done|] == cur
    ensures AsMap(done + [cur])[|done| + 1 := next] == AsMap(done + [cur] + [next])
    ensures (map p | p in AsMap(done + [cur]) && p != |done| :: AsMap(done + [cur])[p]) == AsMap(done)
  {
  }

  /** The standard method: one pass over the paragraphs, a new page after each break. */
  method BreakMapping(breaks: seq<bool>, maxPage: int) returns (pages: map<nat, seq<nat>>)
    ensures var found := BreakPages(breaks, 0, [], 0, maxPage);
      pages == AsMap(if found == [] then [Range(0, |breaks|)] else found)
  {
    hide AsMap, BreakPages, Range;
    var currentPage := 0;
    pages := map[currentPage := []];
    ghost var done: seq<seq<nat>> := [];
    ghost var cur: seq<nat> := [];
    ghost var whole := BreakPages(breaks, 0, [], 0, maxPage);
    OnePage();
    assert done + [cur] == [[]];
    assert [] + whole == whole;
    var stopped := false;
    var i := 0;
    while i < |breaks| && !stopped
      invariant i <= |breaks|
      invariant currentPage == |done|
      invariant !stopped ==> pages == AsMap(done + [cur])
      invariant !stopped ==> whole == done + BreakPages(breaks, i, cur, currentPage, maxPage)
      invariant stopped ==> done != [] && pages == AsMap(done) && whole == done
      decreases |breaks| - i, !stopped
    {
      BreakStep(breaks, i, cur, currentPage, maxPage);
      MapUpdate(done, cur, cur + [i]);
      MapUpdate(done, cur + [i], []);
      pages := pages[currentPage := pages[currentPage] + [i]];
      cur := cur + [i];
      if breaks[i] {
        currentPage := currentPage + 1;
        done := done + [cur];
        Regroup(done[..|done| - 1], [cur], BreakPages(breaks, i + 1, [], currentPage, maxPage));
        assert done == done[..|done| - 1] + [cur];
        cur := [];
        if currentPage > maxPage {
          stopped := true;
        } else {
          pages := pages[currentPage := []];
        }
      }
      i := i + 1;
    }
    // Only the page opened last can be empty; empty pages are removed.
    if !stopped {
      BreakEnd(breaks, cur, currentPage, maxPage);
      MapUpdate(done, cur, []);
      if pages[currentPage] == [] {
        assert done + [] == done;
        pages := map p | p in pages && p != currentPage :: pages[p];
      }
    }
    MapEmpty(whole);
    if pages == map[] {
      pages := map[0 := Range(0, |breaks|)];
      OneGivenPage(Range(0, |breaks|));
    }
  }

  lemma {:induction false} OnePage()
    ensures map[0 := []] == AsMap([[]])
  {
  }

  lemma {:induction false} OneGivenPage(page: seq<nat>)
    ensures map[0 := page] == AsMap([page])
  {
  }

  lemma {:induction false} MapEmpty(pages: seq<seq<nat>>)
    ensures AsMap(pages) == map[] <==> pages == []
  {
    assert pages != [] ==> 0 in AsMap(pages);
  }

  lemma {:induction false} BreakStep(breaks: seq<bool>, i: nat, cur: seq<nat>, page: nat, maxPage: int)
    requires i < |breaks|
    ensures BreakPages(breaks, i, cur, page, maxPage) ==
      if !breaks[i] then BreakPages(breaks, i + 1, cur + [i], page, maxPage)
      else if page + 1 > maxPage then [cur + [i]]
      else [cur + [i]] + BreakPages(breaks, i + 1, [], page + 1, maxPage)
  {
  }

  lemma {:induction false} BreakEnd(breaks: seq<bool>, cur: seq<nat>, page: nat, maxPage: int)
    ensures BreakPages(breaks, |breaks|, cur, page, maxPage) == if cur == [] then [] else [cur]
  {
  }

  /** The estimate for large documents: paragraph `p` goes to page `p / 25`. */
  method EstimateMapping(total: nat, maxPage: int) returns (pages: map<nat, seq<nat>>)
    ensures forall p :: p in pages <==> p == 0 || 0 <= PARAGRAPHS_PER_PAGE * p < Covered(total, maxPage)
    ensures forall p :: p in pages ==>
      pages[p] == Range(PARAGRAPHS_PER_PAGE * p, PageEnd(p, Covered(total, maxPage)))
  {
    hide Range;
    pages := map[0 := []];
    var i := 0;
    var stopped := false;
    while i < total && !stopped
      invariant i <= total && i <= Covered(total, maxPage)
      invariant stopped ==> i == Covered(total, maxPage)
      invariant forall p :: p in pages <==> p == 0 || 0 <= PARAGRAPHS_PER_PAGE * p < i
      invariant forall p :: p in pages ==> pages[p] == Range(PARAGRAPHS_PER_PAGE * p, PageEnd(p, i))
      decreases total - i, !stopped
    {
      var page := i / PARAGRAPHS_PER_PAGE;
      if page > maxPage {
        stopped := true;
      } else {
        if page !in pages {
          pages := pages[page := []];
        }
        RangeSnoc(PARAGRAPHS_PER_PAGE * page, i);
        pages := pages[page := pages[page] + [i]];
        i := i + 1;
      }
    }
  }

  /** End of page `p` when `n` paragraphs are covered. */
  function PageEnd(p: nat, n: nat): nat {
    if n < PARAGRAPHS_PER_PAGE * (p + 1) then n else PARAGRAPHS_PER_PAGE * (p + 1)
  }

  lemma {:induction false} RangeSnoc(lo: nat, hi: nat)
    ensures lo <= hi ==> Range(lo, hi + 1) == Range(lo, hi) + [hi]
    decreases hi - lo
  {
    if lo < hi {
      RangeSnoc(lo + 1, hi);
    }
  }

  // ----- both methods split a prefix of the paragraphs

  lemma {:induction false} FixedAt(lo: nat, n: nat, j: nat)
    requires j < |FixedPages(lo, n)|
    ensures lo + PARAGRAPHS_PER_PAGE * j < n
    ensures FixedPages(lo, n)[j] == Range(lo + PARAGRAPHS_PER_PAGE * j,
      if n < lo + PARAGRAPHS_PER_PAGE * (j + 1) then n else lo + PARAGRAPHS_PER_PAGE * (j + 1))
    decreases n - lo
  {
    hide Range;
    if j > 0 {
      FixedAt(lo + PARAGRAPHS_PER_PAGE, n, j - 1);
    }
  }

  lemma {:induction false} FixedCount(lo: nat, n: nat)
    ensures forall p: nat :: p < |FixedPages(lo, n)| <==> lo + PARAGRAPHS_PER_PAGE * p < n
    decreases n - lo
  {
    hide Range;
    if lo < n && lo + PARAGRAPHS_PER_PAGE < n {
      FixedCount(lo + PARAGRAPHS_PER_PAGE, n);
      forall p: nat ensures p < |FixedPages(lo, n)| <==> lo + PARAGRAPHS_PER_PAGE * p < n {
        if p > 0 {
          assert p - 1 < |FixedPages(lo + PARAGRAPHS_PER_PAGE, n)|
            <==> lo + PARAGRAPHS_PER_PAGE + PARAGRAPHS_PER_PAGE * (p - 1) < n;
        }
      }
    }
  }

  /** `_identify_page_paragraph_mapping`: the dictionary of the document's pages. */
  method IdentifyPages(breaks: seq<bool>, maxPage: int) returns (pages: map<nat, seq<nat>>)
    ensures pages == AsMap(PagesOf(breaks, maxPage))
  {
    hide BreakPages, FixedPages, Range;
    if |breaks| > HEURISTIC_LIMIT {
      pages := EstimateMapping(|breaks|, maxPage);
      EstimateIsFixed(pages, Covered(|breaks|, maxPage));
    } else {
      pages := BreakMapping(breaks, maxPage);
      if breaks == [] {
        BreakEnd(breaks, [], 0, maxPage);
      } else {
        SomePage(breaks, 0, [], 0, maxPage);
      }
    }
  }

  lemma {:induction false} SomePage(breaks: seq<bool>, i: nat, cur: seq<nat>, page: nat, maxPage: int)
    requires i < |breaks|
    ensures BreakPages(breaks, i, cur, page, maxPage) != []
    decreases |breaks| - i
  {
    if !breaks[i] {
      if i + 1 < |breaks| {
        SomePage(breaks, i + 1, cur + [i], page, maxPage);
      }
    }
  }

  lemma {:induction false} EstimateIsFixed(pages: map<nat, seq<nat>>, n: nat)
    requires forall p :: p in pages <==> p == 0 || 0 <= PARAGRAPHS_PER_PAGE * p < n
    requires forall p :: p in pages ==> pages[p] == Range(PARAGRAPHS_PER_PAGE * p, PageEnd(p, n))
    ensures pages == AsMap(if FixedPages(0, n) == [] then [[]] else FixedPages(0, n))
  {
    hide Range;
    FixedCount(0, n);
    var fixed := FixedPages(0, n);
    hide FixedPages;
    if n == 0 {
      assert !(0 < |fixed|);
    } else {
      assert 0 < |fixed|;
      forall p | p in pages ensures p < |fixed| && pages[p] == fixed[p] {
        FixedAt(0, n, p);
      }
    }
  }

  /** Consecutive runs of indices that start at `lo` and end at `hi`. */
  lemma {:induction false} FixedFlat(lo: nat, n: nat)
    requires lo <= n
    ensures Flat(FixedPages(lo, n)) == Range(lo, n)
    decreases n - lo
  {
    hide Range, Flat;
    var m := lo + PARAGRAPHS_PER_PAGE;
    FlatSmall(Range(lo, n));
    if lo < n && m < n {
      FixedFlat(m, n);
      FlatPush(Range(lo, m), FixedPages(m, n));
      RangeSplit(lo, m, n);
    } else if lo == n {
      NothingIn(lo);
    }
  }

  lemma {:induction false} BreakFlat(breaks: seq<bool>, i: nat, cur: seq<nat>, page: nat, maxPage: int, lo: nat) returns (k: nat)
    requires lo <= i <= |breaks| && cur == Range(lo, i)
    ensures var pages := BreakPages(breaks, i, cur, page, maxPage);
      && i <= k <= |breaks| && Flat(pages) == Range(lo, k)
      && (forall p :: p in pages ==> p != [])
      && (k < |breaks| ==> page + |pages| > maxPage)
    decreases |breaks| - i
  {
    hide Range, Flat, BreakPages;
    if i == |breaks| {
      k := i;
      BreakEnd(breaks, cur, page, maxPage);
      FlatSmall(cur);
    } else {
      BreakStep(breaks, i, cur, page, maxPage);
      RangeSnoc(lo, i);
      var full := cur + [i];
      if !breaks[i] {
        k := BreakFlat(breaks, i + 1, full, page, maxPage, lo);
      } else if page + 1 > maxPage {
        k := i + 1;
        FlatSmall(full);
      } else {
        k := BreakFlat(breaks, i + 1, [], page + 1, maxPage, i + 1);
        FlatPush(full, BreakPages(breaks, i + 1, [], page + 1, maxPage));
        RangeSplit(lo, i + 1, k);
      }
    }
  }

  lemma {:induction false} RangeSplit(lo: nat, mid: nat, hi: nat)
    requires lo <= mid <= hi
    ensures Range(lo, mid) + Range(mid, hi) == Range(lo, hi)
  {
  }

  lemma {:induction false} FlatSmall(page: seq<nat>)
    ensures Flat<nat>([]) == [] && Flat([page]) == page
  {
    assert Flat([page]) == page + Flat([page][1..]) == page;
  }

  lemma {:induction false} FlatPush(page: seq<nat>, pages: seq<seq<nat>>)
    ensures Flat([page] + pages) == page + Flat(pages)
  {
    assert ([page] + pages)[1..] == pages;
  }

  /**
   * There is a page, and pages are consecutive, ordered and disjoint: laid end to end they list the paragraphs 0 .. k-1, and paragraphs are
   * left out only when the page limit was reached.
   */
  lemma {:induction false} PagesSplitPrefix(breaks: seq<bool>, maxPage: int) returns (k: nat)
    ensures var pages := PagesOf(breaks, maxPage);
      && k <= |breaks| && Flat(pages) == Range(0, k)
      && pages != [] && (k < |breaks| ==> |pages| > maxPage)
      && ((forall p :: p in pages ==> p != []) || pages == [[]])
  {
    hide Range, Flat;
    FlatSmall([]);
    if |breaks| > HEURISTIC_LIMIT {
      k := Covered(|breaks|, maxPage);
      FixedFlat(0, k);
      FixedCount(0, k);
      var fixed := FixedPages(0, k);
      forall p | p in fixed ensures p != [] {
        var j :| 0 <= j < |fixed| && fixed[j] == p;
        FixedAt(0, k, j);
      }
      if k < |breaks| && maxPage >= 0 {
        assert PARAGRAPHS_PER_PAGE * maxPage < k;
      }
    } else {
      k := BreakFlat(breaks, 0, [], 0, maxPage, 0);
    }
  }

  // ----- the page of a paragraph

  predicate Ends(b: bool) { b }

  /** Page ends before paragraph `i`. */
  function EndsBefore(breaks: seq<bool>, i: nat): nat
    requires i <= |breaks|
  {
    |Filter(breaks[..i], Ends)|
  }

  lemma {:induction false} EndsNext(breaks: seq<bool>, i: nat)
    requires i < |breaks|
    ensures EndsBefore(breaks, i + 1) == EndsBefore(breaks, i) + if breaks[i] then 1 else 0
  {
    assert breaks[..i + 1] == breaks[..i] + [breaks[i]];
    FilterAppend(breaks[..i], [breaks[i]], Ends);
    assert [breaks[i]][1..] == [];
  }

  lemma {:induction false} EndsGrow(breaks: seq<bool>, i: nat, j: nat)
    requires i <= j <= |breaks|
    ensures EndsBefore(breaks, i) <= EndsBefore(breaks, j)
    decreases j
  {
    if i < j {
      hide EndsBefore;
      EndsNext(breaks, j - 1);
      EndsGrow(breaks, i, j - 1);
    }
  }

  ghost predicate OnPage(pages: seq<seq<nat>>, p: nat, x: nat) {
    p < |pages| && x in pages[p]
  }

  /** A paragraph still to come, from `i` on, goes to the page that its page ends say, up to the limit. */
  predicate ToCome(breaks: seq<bool>, i: nat, page: nat, maxPage: int, p: nat, x: nat) {
    && i <= x < |breaks| && EndsBefore(breaks, x) == EndsBefore(breaks, i) + p
    && (p == 0 || page + p <= maxPage)
  }

  lemma OnPushed(first: seq<nat>, rest: seq<seq<nat>>, p: nat, x: nat)
    ensures OnPage([first] + rest, p, x) <==> if p == 0 then x in first else OnPage(rest, p - 1, x)
  {
  }

  lemma {:induction false} BreakPlaces(breaks: seq<bool>, i: nat, cur: seq<nat>, page: nat, maxPage: int, p: nat, x: nat)
    requires i <= |breaks|
    ensures OnPage(BreakPages(breaks, i, cur, page, maxPage), p, x)
       <==> (p == 0 && x in cur) || ToCome(breaks, i, page, maxPage, p, x)
    decreases |breaks| - i
  {
    hide EndsBefore, OnPage, BreakPages;
    if i == |breaks| {
      BreakEnd(breaks, cur, page, maxPage);
      OnNone(if p > 0 then p - 1 else 0, x);
      OnNone(p, x);
      OnPushed(cur, [], p, x);
      assert [cur] == [cur] + [];
    } else {
      BreakStep(breaks, i, cur, page, maxPage);
      EndsNext(breaks, i);
      if i < x < |breaks| {
        EndsGrow(breaks, i + 1, x);
      }
      if !breaks[i] {
        BreakPlaces(breaks, i + 1, cur + [i], page, maxPage, p, x);
      } else if page + 1 > maxPage {
        OnNone(if p > 0 then p - 1 else 0, x);
        OnPushed(cur + [i], [], p, x);
        assert [cur + [i]] == [cur + [i]] + [];
      } else {
        OnPushed(cur + [i], BreakPages(breaks, i + 1, [], page + 1, maxPage), p, x);
        if p > 0 {
          BreakPlaces(breaks, i + 1, [], page + 1, maxPage, p - 1, x);
        }
      }
    }
  }

  lemma OnNone(p: nat, x: nat)
    ensures !OnPage([], p, x)
  {
  }

  lemma {:induction false} FixedPlaces(n: nat, p: nat, x: nat)
    ensures OnPage(FixedPages(0, n), p, x) <==> x < n && p == x / 25
  {
    hide *;
    FixedPage(n, p);
    OnPageIs(FixedPages(0, n), p, x);
    InRange(25 * p, PageEnd(p, n), x);
    Share(p, x);
    EndIs(p, n, x);
  }

  lemma FixedPage(n: nat, p: nat)
    ensures p < |FixedPages(0, n)| <==> 25 * p < n
    ensures p < |FixedPages(0, n)| ==> FixedPages(0, n)[p] == Range(25 * p, PageEnd(p, n))
  {
    FixedCount(0, n);
    if p < |FixedPages(0, n)| {
      FixedAt(0, n, p);
    }
    hide FixedPages, Range;
  }

  lemma OnPageIs(pages: seq<seq<nat>>, p: nat, x: nat)
    ensures OnPage(pages, p, x) <==> p < |pages| && x in pages[p]
  {
  }

  lemma EndIs(p: nat, n: nat, x: nat)
    ensures 25 * p < n && 25 * p <= x < PageEnd(p, n) <==> 25 * p <= x < 25 * (p + 1) && x < n
  {
  }

  lemma Share(p: nat, x: nat)
    ensures p == x / 25 <==> 25 * p <= x < 25 * (p + 1)
  {
  }

  lemma InRange(lo: nat, hi: nat, x: nat)
    ensures x in Range(lo, hi) <==> lo <= x < hi
  {
    hide Range;
    if lo <= x < hi {
      assert Range(lo, hi)[x - lo] == x;
    }
  }

  /**
   * Paragraph `x` is on page `p` exactly when `p` pages end before it, or `p` is its 25th share in a document of more
   * than 1000 paragraphs, and the page is within the limit; page 0 is listed whatever the limit, unless by the estimate.
   */
  lemma {:induction false} ParagraphOnPage(breaks: seq<bool>, maxPage: int, p: nat, x: nat)
    ensures OnPage(PagesOf(breaks, maxPage), p, x) <==>
      && x < |breaks|
      && (if |breaks| > 1000 then p == x / 25 && p <= maxPage
          else p == EndsBefore(breaks, x) && (p == 0 || p <= maxPage))
  {
    OnEmpty(p, x);
    OnNone(p, x);
    hide OnPage, EndsBefore, BreakPages, FixedPages;
    if |breaks| > 1000 {
      FixedPlaces(Covered(|breaks|, maxPage), p, x);
    } else {
      BreakPlaces(breaks, 0, [], 0, maxPage, p, x);
      NoEnds(breaks);
    }
  }

  lemma OnEmpty(p: nat, x: nat)
    ensures !OnPage([[]], p, x)
  {
  }

  lemma NoEnds(breaks: seq<bool>)
    ensures EndsBefore(breaks, 0) == 0
  {
  }

  predicate Asked(p: nat, fromPage: int, toPage: int) { fromPage <= p < toPage }

  /** Page numbers asked for, in order. */
  function PagesToProcess(count: nat, fromPage: int, toPage: int): seq<nat> {
    Filter(Range(0, count), (p: nat) => Asked(p, fromPage, toPage))
  }

  function Clamp(x: int, lo: nat, hi: nat): nat
    requires lo <= hi
  {
    if x < lo then lo else if x > hi then hi else x
  }

  lemma {:induction false} AskedFrom(count: nat, lo: nat, fromPage: int, toPage: int)
    requires lo <= count
    ensures Filter(Range(lo, count), (p: nat) => Asked(p, fromPage, toPage))
         == Range(Clamp(fromPage, lo, count), Clamp(toPage, lo, count))
    decreases count - lo
  {
    var asked := (p: nat) => Asked(p, fromPage, toPage);
    if lo < count {
      hide Filter, Range;
      AskedFrom(count, lo + 1, fromPage, toPage);
      RangeCons(lo, count);
      FilterCons(lo, Range(lo + 1, count), asked);
      if fromPage <= lo < toPage {
        RangeCons(lo, Clamp(toPage, lo, count));
      }
    } else {
      NothingIn(lo);
    }
  }

  lemma RangeCons(lo: nat, hi: nat)
    requires lo < hi
    ensures Range(lo, hi) == [lo] + Range(lo + 1, hi)
  {
  }

  lemma NothingIn(lo: nat)
    ensures Range(lo, lo) == []
  {
  }

  /** The processed pages are consecutive; with the default first page they are a prefix. */
  lemma {:induction false} LimitKeepsPrefix(count: nat, fromPage: int, toPage: int)
    ensures PagesToProcess(count, fromPage, toPage) == Range(Clamp(fromPage, 0, count), Clamp(toPage, 0, count))
  {
    AskedFrom(count, 0, fromPage, toPage);
  }
}
